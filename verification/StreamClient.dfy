/** The client of the byte stream: the fields that its I/O thread updates. */
module StreamClient {
  import opened Udt
  import opened Framing

  /** The return value of DoSendMsg: the bytes accepted, 0 for any failure. */
  function SendReturn(r: SendResult): nat { if r.Accepted? then r.count else 0 }

  /** udt_running_ after a send and after a recv. */
  function RunningAfterSend(running: bool, r: SendResult): bool { running && !r.SendError? }

  function RunningAfterRecv(running: bool, r: RecvResult): bool { running && !(r.RecvError? && r.fatal) }

  /** std::string::erase(0, n). */
  function Erase(buf: string, n: nat): string { if n <= |buf| then buf[n..] else "" }

  /** What a send touches: send_msg_buf_, udt_running_ and the socket. */
  datatype Outgoing = Outgoing(buf: string, running: bool, script: seq<SendResult>, wire: string)

  /** TrySendMsg. */
  function TrySend(o: Outgoing): Outgoing {
    if o.buf == "" then o
    else
      var (r, rest) := NextSend(o.script, o.buf);
      Outgoing(Erase(o.buf, SendReturn(r)), RunningAfterSend(o.running, r), rest, o.wire + Taken(o.buf, r))
  }

  /** Whatever a send accepts leaves the buffer, and nothing else does; a
      refused or failed send leaves buffer and wire alone. */
  lemma TrySendConserves(o: Outgoing)
    ensures TrySend(o).wire + TrySend(o).buf == o.wire + o.buf
    ensures o.wire <= TrySend(o).wire
    ensures TrySend(o).wire == o.wire <==> TrySend(o).buf == o.buf
  {
    if o.buf != "" {
      var r := NextSend(o.script, o.buf).0;
      assert Taken(o.buf, r) + TrySend(o).buf == o.buf;
      assert TrySend(o).wire == o.wire + Taken(o.buf, r);
    }
  }

  function FrameAfterRecv(f: Frame, n: nat, r: RecvResult): Frame
    requires n > 0
  {
    if r.Data? && r.bytes != "" then Reframe(f, n, r.bytes) else f
  }

  class Client {
    const sock: Socket
    const recvCallback: Reframer
    var sendMsgBuf: string
    var running: bool
    var recvedLen: nat

    ghost predicate Valid() reads this, recvCallback { recvCallback.Valid() }

    ghost function Out(): Outgoing reads this, sock { Outgoing(sendMsgBuf, running, sock.sends, sock.stream) }

    constructor (sock: Socket, recvCallback: Reframer)
      requires recvCallback.Valid()
      ensures Valid() && this.sock == sock && this.recvCallback == recvCallback
      ensures sendMsgBuf == "" && !running && recvedLen == 0
    {
      this.sock, this.recvCallback := sock, recvCallback;
      sendMsgBuf, running, recvedLen := "", false, 0;
    }

    method SendMsg(msg: string)
      modifies this`sendMsgBuf
      ensures sendMsgBuf == old(sendMsgBuf) + msg
    {
      sendMsgBuf := sendMsgBuf + msg;
    }

    method SendMsgBufSize() returns (size: nat)
      ensures size == |sendMsgBuf|
    {
      size := |sendMsgBuf|;
    }

    method DoSendMsg(msg: string) returns (sent: nat)
      modifies this`running, sock`sends, sock`stream
      ensures var (r, rest) := NextSend(old(sock.sends), msg);
              && sock.sends == rest
              && sock.stream == old(sock.stream) + Taken(msg, r)
              && running == (old(running) && r != SendError)
              && sent == if r.Accepted? then r.count else 0
    {
      var r := sock.Send(msg);
      match r {
        case WouldBlock => return 0;
        case SendError =>
          running := false;
          return 0;
        case Accepted(count) => return count;
      }
    }

    method TrySendMsg()
      modifies this`running, this`sendMsgBuf, sock`sends, sock`stream
      ensures Out() == TrySend(old(Out()))
    {
      if sendMsgBuf == "" {
        return;
      }
      var sendLen := DoSendMsg(sendMsgBuf);
      if sendLen > 0 {
        sendMsgBuf := sendMsgBuf[sendLen..];
      }
    }

    method DoRecvMsg()
      requires Valid()
      modifies this`running, this`recvedLen, recvCallback, sock`recvs
      ensures Valid()
      ensures var (r, rest) := NextRecv(old(sock.recvs));
              && sock.recvs == rest
              && running == (old(running) && r != RecvError(true))
              && recvedLen == (if r.Data? then |r.bytes| else 0)
              && recvCallback.Abs() == if r.Data? && r.bytes != ""
                                       then Reframe(old(recvCallback.Abs()), recvCallback.testStrSize, r.bytes)
                                       else old(recvCallback.Abs())
    {
      recvedLen := 0;
      var r := sock.Recv();
      match r {
        case NoData => return;
        case RecvError(fatal) =>
          if fatal {
            running := false;
          }
          return;
        case Data(bytes) =>
          if |bytes| > 0 {
            recvedLen := |bytes|;
            recvCallback.RecvFunc(bytes);
          }
      }
    }

    /** One round of the loop in Run. */
    method RunOnce()
      requires Valid()
      modifies this, recvCallback, sock
      ensures Valid()
      ensures var (r1, rest1) := NextRecv(old(sock.recvs));
              var (r2, rest2) := NextRecv(rest1);
              var o1 := TrySend(old(Out()));
              var o2 := TrySend(o1.(running := RunningAfterRecv(o1.running, r1)));
              && Out() == o2.(running := RunningAfterRecv(o2.running, r2))
              && sock.recvs == rest2
              && recvCallback.Abs() == FrameAfterRecv(
                   FrameAfterRecv(old(recvCallback.Abs()), recvCallback.testStrSize, r1), recvCallback.testStrSize, r2)
    {
      TrySendMsg();
      DoRecvMsg();
      TrySendMsg();
      DoRecvMsg();
    }
  }
}
