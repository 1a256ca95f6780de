/** Sending a queue of messages one by one, as both ends of the datagram
    benchmark do, and what a message looks like on arrival. */
module DgramSend {
  import opened Seqs
  import opened Udt

  /** DoSendOneMsg: 1 the message went out, 0 try again later, -1 give up. */
  function SendCode(msg: string, r: SendResult): (code: int)
    ensures code == 1 <==> r == Accepted(|msg|)
    ensures code == 0 <==> r == WouldBlock
    ensures code == -1 <==> r != Accepted(|msg|) && r != WouldBlock
  {
    match r
    case Accepted(count) => if count == |msg| then 1 else -1
    case WouldBlock => 0
    case SendError => -1
  }

  /** The state after the loop of TrySendMsg: the last code is 1 when the queue
      ran empty. */
  datatype Drained = Drained(queue: seq<string>, wire: seq<string>, script: seq<SendResult>, code: int)

  function Drain(queue: seq<string>, script: seq<SendResult>): Drained {
    if queue == [] then Drained([], [], script, 1)
    else
      var (r, rest) := NextSend(script, queue[0]);
      var code := SendCode(queue[0], r);
      var taken := TakenMsgs(queue[0], r);
      if code == 1 then Then(taken, Drain(queue[1..], rest)) else Drained(queue, taken, rest, code)
  }

  function Then(sent: seq<string>, d: Drained): Drained { d.(wire := sent + d.wire) }

  /** One round of the loop, after `sent` has gone out. */
  lemma DrainUnfolds(queue: seq<string>, script: seq<SendResult>, sent: seq<string>)
    requires queue != []
    ensures var (r, rest) := NextSend(script, queue[0]);
            var now := sent + TakenMsgs(queue[0], r);
            Then(sent, Drain(queue, script)) ==
            if SendCode(queue[0], r) == 1 then Then(now, Drain(queue[1..], rest))
            else Drained(queue, now, rest, SendCode(queue[0], r))
  {
    var (r, rest) := NextSend(script, queue[0]);
    var taken, d := TakenMsgs(queue[0], r), Drain(queue[1..], rest);
    assert sent + (taken + d.wire) == (sent + taken) + d.wire;
  }

  lemma TakenWhole(msg: string, r: SendResult)
    requires Possible(msg, r) && SendCode(msg, r) == 1
    ensures TakenMsgs(msg, r) == [msg]
  {
    assert msg[..|msg|] == msg;
  }

  /** How many sends from the start of a script accept the whole message each. */
  function Accepting(queue: seq<string>, script: seq<SendResult>): (k: nat)
    ensures k <= |queue| && k <= |script|
    ensures forall i :: 0 <= i < k ==> Limit(queue[i], script[i]) == Accepted(|queue[i]|)
    ensures k < |queue| && k < |script| ==> Limit(queue[k], script[k]) != Accepted(|queue[k]|)
  {
    if queue == [] || script == [] || Limit(queue[0], script[0]) != Accepted(|queue[0]|) then 0
    else
      var k := Accepting(queue[1..], script[1..]);
      assert forall i :: 0 < i < k + 1 ==> queue[i] == queue[1..][i - 1] && script[i] == script[1..][i - 1];
      k + 1
  }

  /** The whole loop at once: it sends the messages whose sends accept them, in
      order, up to the first that is not accepted as a whole, and keeps the rest.
      That one send decides the code, and a part it accepted is on the wire too. */
  function Outcome(queue: seq<string>, script: seq<SendResult>): Drained {
    var k := Accepting(queue, script);
    if k == |queue| then Drained([], queue, script[k..], 1)
    else if k == |script| then Drained(queue[k..], queue[..k], [], 0)
    else
      var r := Limit(queue[k], script[k]);
      Drained(queue[k..], queue[..k] + Part(queue[k], r), script[k + 1..], if r == WouldBlock then 0 else -1)
  }

  function Part(msg: string, r: SendResult): seq<string> {
    if r.Accepted? && 0 < r.count <= |msg| then [msg[..r.count]] else []
  }

  lemma OutcomeAtOnce(queue: seq<string>, script: seq<SendResult>)
    requires Accepting(queue, script) == 0
    ensures Drain(queue, script) == Outcome(queue, script)
  {
    if queue == [] {
      assert script[0..] == script;
    } else {
      assert queue[0..] == queue && queue[..0] == [];
    }
  }

  lemma Shift<T>(s: seq<T>, k: nat)
    requires 0 < k <= |s|
    ensures s[1..][k - 1..] == s[k..] && [s[0]] + s[1..][..k - 1] == s[..k]
  {
  }

  lemma OutcomeLater(queue: seq<string>, script: seq<SendResult>)
    requires Accepting(queue, script) > 0
    ensures Outcome(queue, script) == Then([queue[0]], Outcome(queue[1..], script[1..]))
  {
    var k, tail, rest := Accepting(queue, script), queue[1..], script[1..];
    assert k - 1 == Accepting(tail, rest);
    Shift(queue, k);
    Shift(script, k);
    if k == |queue| {
      assert queue[..k] == queue && tail[..k - 1] == tail;
    } else if k < |script| {
      Shift(script, k + 1);
      AppendTwice([queue[0]], tail[..k - 1], Part(queue[k], Limit(queue[k], script[k])));
    }
  }

  lemma {:induction false} DrainSendsPrefix(queue: seq<string>, script: seq<SendResult>)
    ensures Drain(queue, script) == Outcome(queue, script)
    decreases |queue|
  {
    if Accepting(queue, script) == 0 {
      OutcomeAtOnce(queue, script);
    } else {
      OutcomeLater(queue, script);
      DrainSendsPrefix(queue[1..], script[1..]);
      TakenWhole(queue[0], Limit(queue[0], script[0]));
    }
  }

  /** Messages as they are handed over on arrival: empty ones are dropped, long
      ones are cut to the receive buffer. */
  function Arriving(msgs: seq<string>): seq<string> {
    if msgs == [] then []
    else
      var last := msgs[|msgs| - 1];
      Arriving(msgs[..|msgs| - 1]) + if last == "" then [] else [Clip(last)]
  }

  lemma ArrivingOne(msg: string)
    ensures Arriving([msg]) == if msg == "" then [] else [Clip(msg)]
  {
    assert [msg][..0] == [];
  }

  lemma {:induction false} ArrivingAppend(a: seq<string>, b: seq<string>)
    ensures Arriving(a + b) == Arriving(a) + Arriving(b)
  {
    if b == [] {
      assert a + b == a;
    } else {
      var init := b[..|b| - 1];
      assert (a + b)[..|a + b| - 1] == a + init;
      ArrivingAppend(a, init);
    }
  }

  lemma ArrivingHead(msgs: seq<string>)
    requires msgs != []
    ensures Arriving(msgs) == (if msgs[0] == "" then [] else [Clip(msgs[0])]) + Arriving(msgs[1..])
  {
    assert msgs == [msgs[0]] + msgs[1..];
    ArrivingOne(msgs[0]);
    ArrivingAppend([msgs[0]], msgs[1..]);
  }

  lemma ArrivingSnoc(msgs: seq<string>, msg: string)
    ensures Arriving(msgs + [msg]) == Arriving(msgs) + if msg == "" then [] else [Clip(msg)]
  {
    ArrivingAppend(msgs, [msg]);
    ArrivingOne(msg);
  }

  /** One message more arrives unchanged if it is neither empty nor too long. */
  lemma UnchangedSnoc(init: seq<string>, last: string)
    requires |Arriving(init)| <= |init|
    ensures |Arriving(init + [last])| <= |init| + 1
    ensures Arriving(init + [last]) == init + [last] <==> Arriving(init) == init && 0 < |last| <= 102_400
  {
    ArrivingSnoc(init, last);
    if Arriving(init + [last]) == init + [last] {
      assert last != "";
      assert Arriving(init) == Arriving(init + [last])[..|init|] && Clip(last) == Arriving(init + [last])[|init|];
    }
  }

  predicate AllFit(msgs: seq<string>) { forall m <- msgs :: 0 < |m| <= 102_400 }

  lemma AllFitSnoc(init: seq<string>, last: string)
    ensures AllFit(init + [last]) <==> AllFit(init) && 0 < |last| <= 102_400
  {
    if AllFit(init + [last]) {
      assert last in init + [last];
      forall m | m in init ensures 0 < |m| <= 102_400 { assert m in init + [last]; }
    }
  }

  lemma UnchangedStep(init: seq<string>, last: string)
    requires |Arriving(init)| <= |init| && (Arriving(init) == init <==> AllFit(init))
    ensures |Arriving(init + [last])| <= |init| + 1
    ensures Arriving(init + [last]) == init + [last] <==> AllFit(init + [last])
  {
    UnchangedSnoc(init, last);
    AllFitSnoc(init, last);
  }

  /** Messages arrive unchanged exactly when none is empty or too long. */
  lemma {:induction false} ArrivingUnchanged(msgs: seq<string>)
    ensures |Arriving(msgs)| <= |msgs|
    ensures Arriving(msgs) == msgs <==> AllFit(msgs)
  {
    if msgs == [] {
    } else {
      var init, last := msgs[..|msgs| - 1], msgs[|msgs| - 1];
      ArrivingUnchanged(init);
      UnchangedStep(init, last);
      assert msgs == init + [last];
    }
  }
}
