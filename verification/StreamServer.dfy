/** One connection of the stream server: it echoes a byte stream. */
module StreamServer {
  import opened Seqs
  import opened Udt

  /** An accepted send. `whole` tells whether it covered the entire buffer; if it
      did not, the server reports 0 and erases nothing. */
  datatype Echo = Echo(data: string, whole: bool)

  /** `buf` is msg_buf_need_send; `received` and `log` are its history. */
  datatype Server = Server(received: string, buf: string, log: seq<Echo>)

  const FRESH := Server("", "", [])

  /** The return value of DoSendMsg. */
  function SendReturn(offer: string, r: SendResult): nat {
    if r.Accepted? && r.count == |offer| then r.count else 0
  }

  function OnRecv(s: Server, bytes: string): Server {
    s.(received := s.received + bytes, buf := s.buf + bytes)
  }

  /** TrySendMsg on a non-empty buffer. */
  function OnSend(s: Server, r: SendResult): Server
    requires Possible(s.buf, r)
  {
    s.(buf := s.buf[SendReturn(s.buf, r)..],
       log := if r.Accepted? && r.count > 0 then s.log + [Echo(s.buf[..r.count], r.count == |s.buf|)] else s.log)
  }

  /** Everything that went into the return channel. */
  function Sent(log: seq<Echo>): string {
    if log == [] then "" else Sent(log[..|log| - 1]) + log[|log| - 1].data
  }

  /** The part of it that was also erased from the buffer. */
  function Erased(log: seq<Echo>): string {
    if log == [] then ""
    else Erased(log[..|log| - 1]) + if log[|log| - 1].whole then log[|log| - 1].data else ""
  }

  /** The number of bytes accepted by sends that did not cover the buffer. */
  function Partial(log: seq<Echo>): nat {
    if log == [] then 0
    else Partial(log[..|log| - 1]) + if log[|log| - 1].whole then 0 else |log[|log| - 1].data|
  }

  /** No send was accepted only in part. */
  predicate AllWhole(log: seq<Echo>) { forall e <- log :: e.whole }

  ghost predicate EchoInv(s: Server) {
    && Erased(s.log) + s.buf == s.received
    && (forall e <- s.log :: e.data != "")
  }

  /** What the sends of a log put on the wire, counted and compared. */
  lemma {:induction false} LogLaw(log: seq<Echo>)
    requires forall e <- log :: e.data != ""
    ensures |Sent(log)| == |Erased(log)| + Partial(log)
    ensures Partial(log) == 0 <==> AllWhole(log)
    ensures AllWhole(log) ==> Sent(log) == Erased(log)
  {
    if log == [] {
    } else {
      var init, last := log[..|log| - 1], log[|log| - 1];
      LogLaw(init);
      assert log == init + [last];
      assert last in log;
    }
  }

  lemma LogSnoc(log: seq<Echo>, e: Echo)
    ensures Sent(log + [e]) == Sent(log) + e.data
    ensures Erased(log + [e]) == Erased(log) + if e.whole then e.data else ""
    ensures Partial(log + [e]) == Partial(log) + if e.whole then 0 else |e.data|
  {
    assert (log + [e])[..|log|] == log;
  }

  lemma OnRecvKeeps(s: Server, bytes: string)
    requires EchoInv(s)
    ensures EchoInv(OnRecv(s, bytes))
  {
    assert Erased(s.log) + (s.buf + bytes) == (Erased(s.log) + s.buf) + bytes;
  }

  lemma OnRecvTwice(s: Server, a: string, b: string)
    ensures OnRecv(OnRecv(s, a), b) == OnRecv(s, a + b)
    ensures OnRecv(s, "") == s
  {
    assert s.received + (a + b) == s.received + a + b && s.buf + (a + b) == s.buf + a + b;
    assert s.received + "" == s.received && s.buf + "" == s.buf;
  }

  lemma OnSendKeeps(s: Server, r: SendResult)
    requires EchoInv(s) && s.buf != "" && Possible(s.buf, r)
    ensures EchoInv(OnSend(s, r))
    ensures OnSend(s, r).received == s.received
    ensures Sent(OnSend(s, r).log) == Sent(s.log) + Taken(s.buf, r)
  {
    var e := Echo(Taken(s.buf, r), r.Accepted? && r.count == |s.buf|);
    LogSnoc(s.log, e);
    if e.whole {
      assert e.data == s.buf;
      assert OnSend(s, r).buf == "";
    } else if e.data == "" {
      assert OnSend(s, r).buf == s.buf;
    }
  }

  /** What one connection can do, in any order. */
  datatype Event = Received(bytes: string) | Offered(r: SendResult)

  function Serve(events: seq<Event>): Server {
    if events == [] then FRESH
    else
      var s := Serve(events[..|events| - 1]);
      match events[|events| - 1]
      case Received(bytes) => OnRecv(s, bytes)
      case Offered(r) => if s.buf != "" then OnSend(s, Limit(s.buf, r)) else s
  }

  lemma {:induction false} ServeKeeps(events: seq<Event>)
    ensures EchoInv(Serve(events))
  {
    if events == [] {
    } else {
      var s := Serve(events[..|events| - 1]);
      ServeKeeps(events[..|events| - 1]);
      match events[|events| - 1] {
        case Received(bytes) => OnRecvKeeps(s, bytes);
        case Offered(r) => if s.buf != "" { OnSendKeeps(s, Limit(s.buf, r)); }
      }
    }
  }

  /** The echo law: every byte accepted by a partial send is a byte sent twice,
      and the echo is faithful exactly when no send was partial. */
  lemma EchoLaw(events: seq<Event>)
    ensures var s := Serve(events);
            && |Sent(s.log)| + |s.buf| == |s.received| + Partial(s.log)
            && (Sent(s.log) + s.buf == s.received <==> AllWhole(s.log))
  {
    ServeKeeps(events);
    var s := Serve(events);
    LogLaw(s.log);
    assert |Erased(s.log) + s.buf| == |s.received|;
    if !AllWhole(s.log) {
      assert |Sent(s.log) + s.buf| != |s.received|;
    }
  }

  /** All bytes that TryRecvMsg takes from a script of recv results: the data up
      to the first result that is not data or has length zero. */
  function Inbound(recvs: seq<RecvResult>): string {
    if recvs == [] || !recvs[0].Data? || recvs[0].bytes == "" then ""
    else recvs[0].bytes + Inbound(recvs[1..])
  }

  /** What it leaves in the script. */
  function Remaining(recvs: seq<RecvResult>): seq<RecvResult> {
    if recvs == [] then []
    else if recvs[0].Data? && recvs[0].bytes != "" then Remaining(recvs[1..]) else recvs[1..]
  }

  /** The size of a script, counting every byte and every call. */
  function ScriptSize(recvs: seq<RecvResult>): nat {
    if recvs == [] then 0
    else (match recvs[0] case Data(bytes) => 1 + |bytes| case _ => 1) + ScriptSize(recvs[1..])
  }

  lemma NextRecvInbound(recvs: seq<RecvResult>)
    ensures var (r, rest) := NextRecv(recvs);
            if r.Data? && r.bytes != ""
            then Inbound(recvs) == r.bytes + Inbound(rest) && Remaining(recvs) == Remaining(rest)
                 && ScriptSize(rest) < ScriptSize(recvs)
            else Inbound(recvs) == "" && Remaining(recvs) == rest
  {
    if recvs != [] && recvs[0].Data? && |recvs[0].bytes| > RECV_BUFFER {
      var bytes := recvs[0].bytes;
      var rest := [Data(bytes[RECV_BUFFER..])] + recvs[1..];
      assert rest[1..] == recvs[1..];
      assert bytes == bytes[..RECV_BUFFER] + bytes[RECV_BUFFER..];
      assert bytes[..RECV_BUFFER] + (bytes[RECV_BUFFER..] + Inbound(recvs[1..])) == bytes + Inbound(recvs[1..]);
    }
  }

  /** With nothing but data in the channel, every byte of it is taken and none is left. */
  lemma {:induction false} InboundIsEverything(chunks: seq<string>)
    requires forall c <- chunks :: c != ""
    ensures Inbound(AllData(chunks)) == Flatten(chunks) && Remaining(AllData(chunks)) == []
  {
    if chunks == [] {
    } else {
      var tail := chunks[1..];
      assert chunks[0] in chunks && forall c <- tail :: c in chunks;
      AllDataTail(chunks);
      InboundIsEverything(tail);
      FlattenCons(chunks[0], tail);
      assert chunks == [chunks[0]] + tail;
    }
  }

  /** In general, everything up to the first call that gives no byte is taken, and
      the results after that call are left. */
  lemma {:induction false} InboundStops(chunks: seq<string>, stop: RecvResult, rest: seq<RecvResult>)
    requires (forall c <- chunks :: c != "") && (stop.Data? ==> stop.bytes == "")
    ensures var recvs := AllData(chunks) + [stop] + rest; Inbound(recvs) == Flatten(chunks) && Remaining(recvs) == rest
  {
    var recvs := AllData(chunks) + [stop] + rest;
    if chunks == [] {
      assert recvs[1..] == rest;
    } else {
      var tail := chunks[1..];
      assert chunks[0] in chunks && forall c <- tail :: c in chunks;
      AllDataTail(chunks);
      assert recvs[1..] == AllData(tail) + [stop] + rest;
      InboundStops(tail, stop, rest);
      FlattenCons(chunks[0], tail);
      assert chunks == [chunks[0]] + tail;
    }
  }

  /** The local buffer of a connection thread and the methods that work on it. */
  class Connection {
    const sock: Socket
    var msgBufNeedSend: string
    ghost var received: string
    ghost var log: seq<Echo>

    ghost function Abs(): Server reads this { Server(received, msgBufNeedSend, log) }

    constructor (sock: Socket)
      ensures this.sock == sock && Abs() == FRESH
    {
      this.sock, this.msgBufNeedSend, this.received, this.log := sock, "", "", [];
    }

    method DoRecvMsg() returns (bytes: string)
      modifies sock`recvs
      ensures var (r, rest) := NextRecv(old(sock.recvs));
              sock.recvs == rest && bytes == if r.Data? then r.bytes else ""
    {
      var r := sock.Recv();
      match r {
        case Data(b) => bytes := b;
        case NoData => bytes := "";
        case RecvError(_) => bytes := "";
      }
    }

    method TryRecvMsg()
      modifies this, sock`recvs
      ensures Abs() == OnRecv(old(Abs()), Inbound(old(sock.recvs)))
      ensures sock.recvs == Remaining(old(sock.recvs))
    {
      ghost var all, rest := OnRecv(Abs(), Inbound(sock.recvs)), Remaining(sock.recvs);
      while true
        invariant OnRecv(Abs(), Inbound(sock.recvs)) == all
        invariant Remaining(sock.recvs) == rest
        decreases ScriptSize(sock.recvs)
      {
        NextRecvInbound(sock.recvs);
        var recvedMsg := DoRecvMsg();
        OnRecvTwice(Abs(), recvedMsg, Inbound(sock.recvs));
        if |recvedMsg| > 0 {
          msgBufNeedSend := msgBufNeedSend + recvedMsg;
          received := received + recvedMsg;
        } else {
          break;
        }
      }
    }

    method DoSendMsg(msg: string) returns (sent: nat)
      modifies sock`sends, sock`stream
      ensures var (r, rest) := NextSend(old(sock.sends), msg);
              && sock.sends == rest
              && sock.stream == old(sock.stream) + Taken(msg, r)
              && sent == SendReturn(msg, r)
    {
      var r := sock.Send(msg);
      match r {
        case WouldBlock => return 0;
        case SendError => return 0;
        case Accepted(count) =>
          if count != |msg| {
            return 0;
          }
          return count;
      }
    }

    method TrySendMsg()
      modifies this, sock`sends, sock`stream
      ensures old(msgBufNeedSend) == "" ==>
                Abs() == old(Abs()) && sock.stream == old(sock.stream) && sock.sends == old(sock.sends)
      ensures old(msgBufNeedSend) != "" ==>
                var (r, rest) := NextSend(old(sock.sends), old(msgBufNeedSend));
                && Abs() == OnSend(old(Abs()), r)
                && sock.sends == rest
                && sock.stream == old(sock.stream) + Taken(old(msgBufNeedSend), r)
    {
      if msgBufNeedSend != "" {
        ghost var r := NextSend(sock.sends, msgBufNeedSend).0;
        ghost var next := OnSend(Abs(), r);
        var sendRet := DoSendMsg(msgBufNeedSend);
        if sendRet > 0 {
          msgBufNeedSend := msgBufNeedSend[sendRet..];
        }
        log := next.log;
      }
    }

    /** One round of WorkThread. */
    method WorkOnce()
      modifies this, sock
      ensures var s := OnRecv(old(Abs()), Inbound(old(sock.recvs)));
              var (r, rest) := NextSend(old(sock.sends), s.buf);
              && Abs() == (if s.buf == "" then s else OnSend(s, r))
              && sock.recvs == Remaining(old(sock.recvs))
              && sock.sends == (if s.buf == "" then old(sock.sends) else rest)
              && sock.stream == old(sock.stream) + if s.buf == "" then "" else Taken(s.buf, r)
    {
      TryRecvMsg();
      if |msgBufNeedSend| > 0 {
        TrySendMsg();
      }
    }
  }
}
