/** What the server's treatment of partial sends does to messages: a run, for
    every message, in which its first byte is echoed twice. */
module StreamCorruption {
  import opened Udt
  import opened Framing
  import opened StreamPipeline
  import Server = StreamServer

  /** A message whose first byte is doubled, cut to its old length. */
  function Shifted(m: string): (r: string)
    requires m != ""
    ensures |r| == |m|
  {
    [m[0]] + m[..|m| - 1]
  }

  /** Only a message of equal bytes does not show the change. */
  lemma {:induction false} ShiftedIsSame(m: string)
    requires m != ""
    ensures Shifted(m) == m <==> forall i :: 0 <= i < |m| ==> m[i] == m[0]
  {
    if Shifted(m) == m {
      forall i | 0 <= i < |m| ensures m[i] == m[0] { EqualToFirst(m, i); }
    } else {
    }
  }

  lemma {:induction false} EqualToFirst(m: string, i: nat)
    requires i < |m| && Shifted(m) == m
    ensures m[i] == m[0]
  {
    if i == 0 {
    } else {
      EqualToFirst(m, i - 1);
      assert Shifted(m)[i] == m[i - 1];
    }
  }

  /** The client after the channel has taken the whole message. */
  function AfterClientSend(m: string): State {
    INIT.(throttled := true, submitted := [m], pc := Receiving(false), accepted := m, fwd := m)
  }

  lemma ClientSendsAll(m: string) returns (steps: seq<Step>)
    requires m != ""
    ensures Exec(|m|, INIT, steps) == AfterClientSend(m)
  {
    var n := |m|;
    assert [] + [m] == [m] && "" + m == m && m[..n] == m && m[n..] == "";
    var s1 := INIT.(throttled := true, submitted := [m], buf := m);
    steps := Then(n, INIT, [], Submit(m), s1);
    steps := Then(n, INIT, steps, TestRunning, s1.(pc := SendTest(false)));
    var s3 := s1.(pc := Offering(false, m));
    steps := Then(n, INIT, steps, TestBuffer, s3);
    steps := Then(n, INIT, steps, ClientSend(Accepted(n)), s3.(accepted := m, fwd := m, pc := Erasing(false, n)));
    steps := Then(n, INIT, steps, ClientErase, AfterClientSend(m));
  }

  /** The server after one byte of the message was accepted. */
  function AfterPartialSend(m: string): State
    requires m != ""
  {
    AfterClientSend(m).(fwd := "", ret := m[..1], server := Server.Server(m, m, [Server.Echo(m[..1], false)]))
  }

  lemma ServerSendsOne(m: string) returns (steps: seq<Step>)
    requires 1 < |m| <= 102_400
    ensures Exec(|m|, INIT, steps) == AfterPartialSend(m)
  {
    var n := |m|;
    steps := ClientSendsAll(m);
    assert "" + m == m && m[n..] == "" && "" + m[..1] == m[..1] && m[0..] == m;
    var s1 := AfterClientSend(m).(fwd := "", server := Server.Server(m, m, []));
    steps := Then(n, INIT, steps, ServerRecv(Data(m)), s1);
    steps := Then(n, INIT, steps, ServerRecv(NoData), s1.(sending := true));
    steps := Then(n, INIT, steps, ServerSend(Accepted(1)), AfterPartialSend(m));
  }

  /** The server after it has sent the whole message as well. */
  function AfterResend(m: string): State
    requires m != ""
  {
    AfterPartialSend(m).(ret := m[..1] + m,
      server := Server.Server(m, "", [Server.Echo(m[..1], false), Server.Echo(m, true)]))
  }

  lemma ServerResends(m: string) returns (steps: seq<Step>)
    requires 1 < |m| <= 102_400
    ensures Exec(|m|, INIT, steps) == AfterResend(m)
  {
    var n := |m|;
    steps := ServerSendsOne(m);
    assert m[..n] == m && m[n..] == "";
    steps := Then(n, INIT, steps, ServerRecv(NoData), AfterPartialSend(m).(sending := true));
    steps := Then(n, INIT, steps, ServerSend(Accepted(n)), AfterResend(m));
  }

  lemma OneBlock(block: string)
    requires block != ""
    ensures Reframe(Frame("", []), |block|, block) == Frame("", [block])
  {
    assert "" + block == block && block[..|block|] == block && block[|block|..] == "";
    assert Blocks(block, |block|) == [block] + Blocks("", |block|);
    assert Residue(block, |block|) == Residue("", |block|);
  }

  /** The client after it has received as many bytes as the message has. */
  function AfterClientRecv(m: string): State
    requires m != ""
  {
    AfterResend(m).(ret := m[|m| - 1..], consumed := Shifted(m), frame := Frame("", [Shifted(m)]), pc := SendTest(true))
  }

  lemma ClientRecvsShifted(m: string)
    requires 1 < |m| <= 102_400
    ensures Next(|m|, AfterResend(m), ClientRecv(Data(Shifted(m)))) == AfterClientRecv(m)
  {
    OneBlock(Shifted(m));
    assert m[..1] + m == Shifted(m) + m[|m| - 1..];
    assert "" + Shifted(m) == Shifted(m);
  }

  /** For every message there is a run of the benchmark, in which only this
      message is submitted and framing is by its length, whose client handles the
      message with its first byte doubled. It is a different message unless all
      its bytes are equal. */
  lemma PartialSendCorrupts(m: string) returns (steps: seq<Step>)
    requires 1 < |m| <= 102_400
    ensures var s := Exec(|m|, INIT, steps);
            && s.submitted == [m]
            && s.frame == Frame("", [Shifted(m)])
            && (s.frame.emitted == s.submitted <==> forall i :: 0 <= i < |m| ==> m[i] == m[0])
  {
    steps := ServerResends(m);
    ShiftedIsSame(m);
    ClientRecvsShifted(m);
    steps := Then(|m|, INIT, steps, ClientRecv(Data(Shifted(m))), AfterClientRecv(m));
  }
}
