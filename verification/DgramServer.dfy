/** One connection of the datagram server: it echoes messages. */
module DgramServer {
  import opened Udt
  import opened DgramSend

  /** Whether TryRecvMsg makes another call after this result. Unlike the
      client, the server stops at an empty message and goes on after an error
      that is not one of the three fatal ones. */
  predicate GoesOn(r: RecvResult) {
    match r
    case Data(bytes) => bytes != ""
    case NoData => false
    case RecvError(fatal) => !fatal
  }

  /** What TryRecvMsg appends to the queue. */
  function Collected(recvs: seq<RecvResult>): seq<string> {
    if recvs == [] || !GoesOn(recvs[0]) then []
    else (if recvs[0].Data? then [Clip(recvs[0].bytes)] else []) + Collected(recvs[1..])
  }

  function Remaining(recvs: seq<RecvResult>): seq<RecvResult> {
    if recvs == [] then [] else if GoesOn(recvs[0]) then Remaining(recvs[1..]) else recvs[1..]
  }

  /** The queue gets the arriving messages before the first empty one. */
  lemma {:induction false} CollectsUpToEmpty(msgs: seq<string>, k: nat)
    requires k <= |msgs| && (forall i :: 0 <= i < k ==> msgs[i] != "") && (k < |msgs| ==> msgs[k] == "")
    ensures Collected(AllData(msgs)) == Arriving(msgs[..k])
  {
    if k == 0 {
    } else {
      var tail := msgs[1..];
      AllDataTail(msgs);
      CollectsUpToEmpty(tail, k - 1);
      assert msgs[..k][1..] == tail[..k - 1];
      ArrivingHead(msgs[..k]);
    }
  }

  /** The messages among some results. */
  function Messages(recvs: seq<RecvResult>): seq<string> {
    if recvs == [] then []
    else (if recvs[0].Data? then [recvs[0].bytes] else []) + Messages(recvs[1..])
  }

  /** In general, the loop collects the messages, passing over errors that are not
      fatal, until it gets an empty message, no data, or a fatal error. */
  lemma {:induction false} CollectionStops(recvs: seq<RecvResult>, stop: RecvResult, rest: seq<RecvResult>)
    requires forall r <- recvs :: (r.Data? && r.bytes != "") || r == RecvError(false)
    requires stop == Data("") || stop == NoData || stop == RecvError(true)
    ensures Collected(recvs + [stop] + rest) == Arriving(Messages(recvs)) && Remaining(recvs + [stop] + rest) == rest
  {
    if recvs == [] {
      assert (recvs + [stop] + rest)[1..] == rest;
    } else {
      var tail := recvs[1..];
      assert recvs[0] in recvs && forall r <- tail :: r in recvs;
      assert (recvs + [stop] + rest)[1..] == tail + [stop] + rest;
      CollectionStops(tail, stop, rest);
      if recvs[0].Data? {
        ArrivingHead(Messages(recvs));
        assert Messages(recvs)[1..] == Messages(tail);
      } else {
        assert Messages(recvs) == [] + Messages(tail) == Messages(tail);
        assert Collected(recvs + [stop] + rest) == [] + Collected(tail + [stop] + rest);
      }
    }
  }

  class Connection {
    const sock: Socket
    var msgQueueNeedSend: seq<string>

    constructor (sock: Socket)
      ensures this.sock == sock && msgQueueNeedSend == []
    {
      this.sock, this.msgQueueNeedSend := sock, [];
    }

    method DoRecvMsg() returns (msg: string, haveMsgStill: bool)
      modifies sock`recvs
      ensures var (r, rest) := NextRecvMsg(old(sock.recvs));
              && sock.recvs == rest
              && msg == (if r.Data? then r.bytes else "")
              && haveMsgStill == GoesOn(r)
    {
      haveMsgStill := true;
      var r := sock.RecvMsg();
      match r {
        case NoData => return "", false;
        case RecvError(fatal) =>
          if fatal {
            haveMsgStill := false;
          }
          return "", haveMsgStill;
        case Data(bytes) =>
          if |bytes| > 0 {
            return bytes, true;
          }
          return "", false;
      }
    }

    method TryRecvMsg()
      modifies this, sock`recvs
      ensures msgQueueNeedSend == old(msgQueueNeedSend) + Collected(old(sock.recvs))
      ensures sock.recvs == Remaining(old(sock.recvs))
    {
      ghost var recvs := sock.recvs;
      var haveMsgStill := true;
      while haveMsgStill
        invariant haveMsgStill ==>
                    && msgQueueNeedSend + Collected(sock.recvs) == old(msgQueueNeedSend) + Collected(recvs)
                    && Remaining(sock.recvs) == Remaining(recvs)
        invariant !haveMsgStill ==>
                    && msgQueueNeedSend == old(msgQueueNeedSend) + Collected(recvs)
                    && sock.recvs == Remaining(recvs)
        decreases haveMsgStill, |sock.recvs|
      {
        var recvedMsg;
        recvedMsg, haveMsgStill := DoRecvMsg();
        if |recvedMsg| > 0 {
          msgQueueNeedSend := msgQueueNeedSend + [recvedMsg];
        }
      }
    }

    method DoSendOneMsg(msg: string) returns (code: int)
      modifies sock`sends, sock`messages
      ensures var (r, rest) := NextSend(old(sock.sends), msg);
              && sock.sends == rest
              && sock.messages == old(sock.messages) + TakenMsgs(msg, r)
              && code == SendCode(msg, r)
    {
      var r := sock.SendMsg(msg);
      match r {
        case WouldBlock => return 0;
        case SendError => return -1;
        case Accepted(count) =>
          if count != |msg| {
            return -1;
          }
          return 1;
      }
    }

    method TrySendMsg()
      modifies this, sock`sends, sock`messages
      ensures var d := Drain(old(msgQueueNeedSend), old(sock.sends));
              && msgQueueNeedSend == d.queue
              && sock.sends == d.script
              && sock.messages == old(sock.messages) + d.wire
    {
      ghost var d, sent := Drain(msgQueueNeedSend, sock.sends), [];
      while |msgQueueNeedSend| > 0
        invariant sock.messages == old(sock.messages) + sent
        invariant d == Then(sent, Drain(msgQueueNeedSend, sock.sends))
        decreases |msgQueueNeedSend|
      {
        var msg := msgQueueNeedSend[0];
        DrainUnfolds(msgQueueNeedSend, sock.sends, sent);
        sent := sent + TakenMsgs(msg, NextSend(sock.sends, msg).0);
        var sendRet := DoSendOneMsg(msg);
        if sendRet != 1 {
          return;
        }
        msgQueueNeedSend := msgQueueNeedSend[1..];
      }
    }

    /** One round of WorkThread. */
    method WorkOnce()
      modifies this, sock
      ensures var d := Drain(old(msgQueueNeedSend) + Collected(old(sock.recvs)), old(sock.sends));
              && msgQueueNeedSend == d.queue
              && sock.messages == old(sock.messages) + d.wire
              && sock.sends == d.script
              && sock.recvs == Remaining(old(sock.recvs))
    {
      TryRecvMsg();
      if |msgQueueNeedSend| > 0 {
        TrySendMsg();
      }
    }
  }
}
