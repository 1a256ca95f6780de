/**
 * The contract of the UDT library as the programs see it: what one call to
 * send, sendmsg, recv or recvmsg may report, and a socket whose behaviour is
 * an arbitrary finite script of such reports, after which every call would
 * block. UDT itself is not part of this model.
 */
module Udt {

  /** One call to UDT::send or UDT::sendmsg. */
  datatype SendResult = Accepted(count: nat) | WouldBlock | SendError

  /** One call to UDT::recv or UDT::recvmsg. `fatal` marks the three error
      codes (bad parameter, lost connection, bad socket) that stop a client. */
  datatype RecvResult = Data(bytes: string) | NoData | RecvError(fatal: bool)

  /** The size of udtbuf_ and recv_buf. */
  const RECV_BUFFER: nat := 1024 * 100

  /** What recvmsg delivers of a message: the part that fits the buffer. */
  function Clip(msg: string): (r: string)
    ensures r <= msg
    ensures |msg| <= 102_400 ==> r == msg
    ensures |msg| > 102_400 ==> |r| == 102_400
  {
    if |msg| <= RECV_BUFFER then msg else msg[..RECV_BUFFER]
  }

  /** A result that the channel can give to an offer: never more than offered. */
  predicate Possible(offer: string, r: SendResult) {
    r.Accepted? ==> r.count <= |offer|
  }

  /** The nearest possible result. */
  function Limit(offer: string, r: SendResult): (r': SendResult)
    ensures Possible(offer, r') && (Possible(offer, r) ==> r' == r)
  {
    if Possible(offer, r) then r else Accepted(|offer|)
  }

  /** The bytes of the offer that enter the channel. */
  function Taken(offer: string, r: SendResult): (bytes: string)
    requires Possible(offer, r)
    ensures bytes <= offer
  {
    if r.Accepted? then offer[..r.count] else ""
  }

  /** The messages that enter a message channel: the offer when it was accepted
      as a whole, a truncated copy when it was accepted in part. */
  function TakenMsgs(offer: string, r: SendResult): seq<string>
    requires Possible(offer, r)
  {
    if r.Accepted? && (r.count == |offer| || r.count > 0) then [offer[..r.count]] else []
  }

  /** The result of the next send and the rest of the script. */
  function NextSend(script: seq<SendResult>, offer: string): (r: (SendResult, seq<SendResult>))
    ensures Possible(offer, r.0)
  {
    if script == [] then (WouldBlock, []) else (Limit(offer, script[0]), script[1..])
  }

  /** The next recv on a byte stream; what does not fit the buffer stays. */
  function NextRecv(script: seq<RecvResult>): (r: (RecvResult, seq<RecvResult>))
    ensures r.0.Data? ==> |r.0.bytes| <= 102_400
  {
    if script == [] then (NoData, [])
    else match script[0]
      case Data(bytes) =>
        if |bytes| <= RECV_BUFFER then (script[0], script[1..])
        else (Data(bytes[..RECV_BUFFER]), [Data(bytes[RECV_BUFFER..])] + script[1..])
      case _ => (script[0], script[1..])
  }

  /** The next recvmsg; what does not fit the buffer is lost. */
  function NextRecvMsg(script: seq<RecvResult>): (r: (RecvResult, seq<RecvResult>))
    ensures r.0.Data? ==> |r.0.bytes| <= 102_400
    ensures script != [] ==> r.1 == script[1..]
  {
    if script == [] then (NoData, [])
    else match script[0]
      case Data(bytes) => (Data(Clip(bytes)), script[1..])
      case _ => (script[0], script[1..])
  }

  /** A channel that holds these pieces and nothing else. */
  function AllData(pieces: seq<string>): (script: seq<RecvResult>)
    ensures |script| == |pieces| && forall i :: 0 <= i < |pieces| ==> script[i] == Data(pieces[i])
  {
    seq(|pieces|, i requires 0 <= i < |pieces| => Data(pieces[i]))
  }

  lemma AllDataTail(pieces: seq<string>)
    requires pieces != []
    ensures AllData(pieces)[1..] == AllData(pieces[1..])
  {
  }

  /** A non-blocking socket. */
  class Socket {
    var sends: seq<SendResult>
    var recvs: seq<RecvResult>
    var stream: string       // every byte accepted by Send
    var messages: seq<string> // every message accepted by SendMsg

    constructor (sends: seq<SendResult>, recvs: seq<RecvResult>)
      ensures this.sends == sends && this.recvs == recvs
      ensures stream == "" && messages == []
    {
      this.sends, this.recvs, this.stream, this.messages := sends, recvs, "", [];
    }

    method Send(offer: string) returns (r: SendResult)
      modifies this`sends, this`stream
      ensures (r, sends) == NextSend(old(sends), offer)
      ensures stream == old(stream) + Taken(offer, r)
      ensures if old(sends) == [] then r == WouldBlock && sends == [] else sends == old(sends)[1..]
      ensures old(sends) != [] && Possible(offer, old(sends)[0]) ==> r == old(sends)[0]
      ensures r.Accepted? ==> r.count <= |offer| && stream == old(stream) + offer[..r.count]
      ensures !r.Accepted? ==> stream == old(stream)
    {
      var (result, rest) := NextSend(sends, offer);
      r, sends := result, rest;
      stream := stream + Taken(offer, r);
    }

    method SendMsg(offer: string) returns (r: SendResult)
      modifies this`sends, this`messages
      ensures (r, sends) == NextSend(old(sends), offer)
      ensures messages == old(messages) + TakenMsgs(offer, r)
      ensures if old(sends) == [] then r == WouldBlock && sends == [] else sends == old(sends)[1..]
      ensures old(sends) != [] && Possible(offer, old(sends)[0]) ==> r == old(sends)[0]
      ensures r == Accepted(|offer|) ==> messages == old(messages) + [offer]
      ensures r.Accepted? && 0 < r.count < |offer| ==> messages == old(messages) + [offer[..r.count]]
      ensures !r.Accepted? || r.count == 0 < |offer| ==> messages == old(messages)
    {
      var (result, rest) := NextSend(sends, offer);
      r, sends := result, rest;
      messages := messages + TakenMsgs(offer, r);
      assert offer[..|offer|] == offer;
    }

    method Recv() returns (r: RecvResult)
      modifies this`recvs
      ensures (r, recvs) == NextRecv(old(recvs))
      ensures old(recvs) == [] ==> r == NoData && recvs == []
      ensures old(recvs) != [] && !(old(recvs)[0].Data? && |old(recvs)[0].bytes| > 102_400) ==>
                r == old(recvs)[0] && recvs == old(recvs)[1..]
      ensures old(recvs) != [] && old(recvs)[0].Data? && |old(recvs)[0].bytes| > 102_400 ==>
                && r == Data(old(recvs)[0].bytes[..102_400])
                && recvs == [Data(old(recvs)[0].bytes[102_400..])] + old(recvs)[1..]
    {
      var (result, rest) := NextRecv(recvs);
      r, recvs := result, rest;
    }

    method RecvMsg() returns (r: RecvResult)
      modifies this`recvs
      ensures (r, recvs) == NextRecvMsg(old(recvs))
      ensures old(recvs) == [] ==> r == NoData && recvs == []
      ensures old(recvs) != [] ==> recvs == old(recvs)[1..]
      ensures old(recvs) != [] && !(old(recvs)[0].Data? && |old(recvs)[0].bytes| > 102_400) ==> r == old(recvs)[0]
      ensures old(recvs) != [] && old(recvs)[0].Data? && |old(recvs)[0].bytes| > 102_400 ==>
                r == Data(old(recvs)[0].bytes[..102_400])
    {
      var (result, rest) := NextRecvMsg(recvs);
      r, recvs := result, rest;
    }
  }
}
