/** Liveness of the byte stream under every fair schedule: once the producer
    stops, the pipeline empties itself whatever the order in which the client's
    thread, the server's thread and the channels take their turns. */
module StreamFairness {
  import opened Seqs
  import opened Udt
  import opened Framing
  import opened StreamPipeline
  import opened StreamDrain
  import Server = StreamServer

  // ----- Transfers are enough -----

  /** A run in segments, each of which moves a byte if any is left. */
  ghost predicate Transfers(n: nat, s: State, segments: seq<seq<Step>>)
    requires n > 0
    decreases |segments|
  {
    segments == [] ||
    var t := Exec(n, s, segments[0]);
    && NoSubmit(segments[0])
    && Server.AllWhole(t.server.log)
    && (Measure(s) > 0 ==> AllMoved(n, s, segments[0]) > 0)
    && Transfers(n, t, segments[1..])
  }

  /** As many segments as there are moves ahead empty the pipeline. */
  lemma {:induction false} TransfersDrain(n: nat, s: State, segments: seq<seq<Step>>)
    requires n > 0 && Inv(n, s) && Transfers(n, s, segments) && |segments| >= Measure(s)
    ensures Measure(Exec(n, s, Flatten(segments))) == 0
    ensures segments != [] ==> Server.AllWhole(Exec(n, s, Flatten(segments)).server.log)
    ensures Exec(n, s, Flatten(segments)).submitted == s.submitted
    decreases |segments|
  {
    if segments == [] {
    } else {
      var t := Exec(n, s, segments[0]);
      InvAlways(n, s, segments[0]);
      TransfersAreBounded(n, s, segments[0]);
      SubmittedStays(n, s, segments[0]);
      TransfersDrain(n, t, segments[1..]);
      FirstSegment(n, s, segments);
    }
  }

  lemma FirstSegment(n: nat, s: State, segments: seq<seq<Step>>)
    requires n > 0 && segments != []
    ensures Exec(n, s, Flatten(segments)) == Exec(n, Exec(n, s, segments[0]), Flatten(segments[1..]))
  {
    assert segments == [segments[0]] + segments[1..];
    FlattenCons(segments[0], segments[1..]);
    ExecAppend(n, s, segments[0], Flatten(segments[1..]));
  }

  // ----- Fair schedules make transfers -----

  /** A result by which a channel neither withholds what it could transfer nor
      fails; the server's sends are accepted as a whole. */
  predicate Grants(s: State, step: Step) {
    Enabled(s, step) ==>
      match step
      case Submit(_) => false
      case ClientSend(r) => r.Accepted? && r.count > 0
      case ClientRecv(d) => (s.ret != "" ==> d.Data? && d.bytes != "") && !(d.RecvError? && d.fatal)
      case ServerRecv(d) => s.fwd != "" ==> d.Data? && d.bytes != ""
      case ServerSend(r) => s.server.buf != "" ==> r == Accepted(|s.server.buf|)
      case _ => true
  }

  ghost predicate Generous(n: nat, s: State, steps: seq<Step>)
    requires n > 0
    decreases |steps|
  {
    steps == [] || (Grants(s, steps[0]) && Generous(n, Next(n, s, steps[0]), steps[1..]))
  }

  predicate ClientTurn(s: State, step: Step) {
    Enabled(s, step) && !step.Submit? && !step.CheckBacklog? && !step.ServerRecv? && !step.ServerSend?
  }

  predicate ServerTurn(s: State, step: Step) { Enabled(s, step) && (step.ServerRecv? || step.ServerSend?) }

  /** How often the client's thread, and the server's, really take a step. */
  function ClientTurns(n: nat, s: State, steps: seq<Step>): nat
    requires n > 0
    decreases |steps|
  {
    if steps == [] then 0
    else (if ClientTurn(s, steps[0]) then 1 else 0) + ClientTurns(n, Next(n, s, steps[0]), steps[1..])
  }

  function ServerTurns(n: nat, s: State, steps: seq<Step>): nat
    requires n > 0
    decreases |steps|
  {
    if steps == [] then 0
    else (if ServerTurn(s, steps[0]) then 1 else 0) + ServerTurns(n, Next(n, s, steps[0]), steps[1..])
  }

  /** A segment in which both threads get enough turns. */
  ghost predicate Fair(n: nat, s: State, steps: seq<Step>)
    requires n > 0
  {
    NoSubmit(steps) && Generous(n, s, steps) && ClientTurns(n, s, steps) >= 5 && ServerTurns(n, s, steps) >= 2
  }

  predicate SameBytes(s: State, t: State) {
    Unaccepted(s) == Unaccepted(t) && s.fwd == t.fwd && s.server == t.server && s.ret == t.ret
  }

  /** A granted step that moves nothing leaves all bytes where they are. */
  lemma IdleStep(n: nat, s: State, step: Step)
    requires n > 0 && RaceInv(s) && Grants(s, step) && Moved(s, step) == 0
    ensures SameBytes(s, Next(n, s, step))
  {
  }

  /** A granted step keeps the client alive and the server's sends whole. */
  lemma GrantedStepKeeps(n: nat, s: State, step: Step)
    requires n > 0 && RaceInv(s) && Live(s) && Grants(s, step)
    ensures RaceInv(Next(n, s, step)) && Live(Next(n, s, step)) && !(Enabled(s, step) && step.Submit?)
    ensures Server.AllWhole(s.server.log) ==> Server.AllWhole(Next(n, s, step).server.log)
    ensures Next(n, s, step).submitted == s.submitted
  {
  }

  /** The turns of the client's thread, at most, before it has to move a byte. */
  function ClientPatience(s: State): nat {
    if s.ret != "" then StepsToReceiving(s.pc) else StepsToOffering(s.pc)
  }

  /** A turn without a transfer brings the thread closer to each of its calls
      that would transfer something. */
  lemma TurnComesCloser(n: nat, s: State, step: Step)
    requires n > 0 && RaceInv(s) && Live(s) && Grants(s, step) && Moved(s, step) == 0 && ClientTurn(s, step)
    ensures var pc := Next(n, s, step).pc;
            && (s.ret != "" ==> StepsToReceiving(pc) < StepsToReceiving(s.pc))
            && (Unaccepted(s) != "" ==> StepsToOffering(pc) < StepsToOffering(s.pc))
  {
    match step {
      case TestRunning =>
      case TestBuffer =>
      case ClientSend(r) =>
      case ClientErase =>
      case ClientRecv(d) =>
    }
  }

  lemma OthersLeavePc(n: nat, s: State, step: Step)
    requires n > 0 && !ClientTurn(s, step)
    ensures Next(n, s, step).pc == s.pc
  {
  }

  lemma ClientComesCloser(n: nat, s: State, step: Step)
    requires n > 0 && RaceInv(s) && Live(s) && (s.ret != "" || Unaccepted(s) != "")
    requires Grants(s, step) && Moved(s, step) == 0
    ensures ClientPatience(Next(n, s, step)) <= ClientPatience(s) - if ClientTurn(s, step) then 1 else 0
  {
    IdleStep(n, s, step);
    var t := Next(n, s, step);
    assert t.ret == s.ret;
    if ClientTurn(s, step) { TurnComesCloser(n, s, step); } else { OthersLeavePc(n, s, step); }
  }

  function ServerPatience(s: State): nat {
    if (s.server.buf != "") == s.sending then 0 else 1
  }

  lemma ServerComesCloser(n: nat, s: State, step: Step)
    requires n > 0 && (s.server.buf != "" || s.fwd != "")
    requires Grants(s, step) && Moved(s, step) == 0
    ensures ServerPatience(Next(n, s, step)) <= ServerPatience(s) - if ServerTurn(s, step) then 1 else 0
  {
  }

  lemma {:induction false} ClientMoves(n: nat, s: State, steps: seq<Step>)
    requires n > 0 && RaceInv(s) && Live(s) && (s.ret != "" || Unaccepted(s) != "")
    requires Generous(n, s, steps) && ClientTurns(n, s, steps) > ClientPatience(s)
    ensures AllMoved(n, s, steps) > 0
    decreases |steps|
  {
    if Moved(s, steps[0]) > 0 {
    } else {
      ClientComesCloser(n, s, steps[0]);
      IdleStep(n, s, steps[0]);
      GrantedStepKeeps(n, s, steps[0]);
      ClientMoves(n, Next(n, s, steps[0]), steps[1..]);
    }
  }

  lemma {:induction false} ServerMoves(n: nat, s: State, steps: seq<Step>)
    requires n > 0 && RaceInv(s) && Live(s) && (s.server.buf != "" || s.fwd != "")
    requires Generous(n, s, steps) && ServerTurns(n, s, steps) > ServerPatience(s)
    ensures AllMoved(n, s, steps) > 0
    decreases |steps|
  {
    if Moved(s, steps[0]) > 0 {
    } else {
      ServerComesCloser(n, s, steps[0]);
      IdleStep(n, s, steps[0]);
      GrantedStepKeeps(n, s, steps[0]);
      ServerMoves(n, Next(n, s, steps[0]), steps[1..]);
    }
  }

  /** Five turns of the client and two of the server, in any order and mixed with
      anything else but submissions, move a byte while there is one. */
  lemma FairMoves(n: nat, s: State, steps: seq<Step>)
    requires n > 0 && RaceInv(s) && Live(s) && Measure(s) > 0 && Fair(n, s, steps)
    ensures AllMoved(n, s, steps) > 0
  {
    if s.ret != "" || Unaccepted(s) != "" {
      ClientMoves(n, s, steps);
    } else {
      ServerMoves(n, s, steps);
    }
  }

  lemma {:induction false} GenerousKeeps(n: nat, s: State, steps: seq<Step>)
    requires n > 0 && RaceInv(s) && Live(s) && Generous(n, s, steps)
    ensures Live(Exec(n, s, steps))
    ensures Server.AllWhole(s.server.log) ==> Server.AllWhole(Exec(n, s, steps).server.log)
    ensures Exec(n, s, steps).submitted == s.submitted
    decreases |steps|
  {
    if steps == [] {
    } else {
      GrantedStepKeeps(n, s, steps[0]);
      GenerousKeeps(n, Next(n, s, steps[0]), steps[1..]);
    }
  }

  /** A fair run: each segment is fair where it starts. */
  ghost predicate AllFair(n: nat, s: State, segments: seq<seq<Step>>)
    requires n > 0
    decreases |segments|
  {
    segments == [] || (Fair(n, s, segments[0]) && AllFair(n, Exec(n, s, segments[0]), segments[1..]))
  }

  lemma {:induction false} FairTransfers(n: nat, s: State, segments: seq<seq<Step>>)
    requires n > 0 && Inv(n, s) && Live(s) && Server.AllWhole(s.server.log) && AllFair(n, s, segments)
    ensures Transfers(n, s, segments)
    decreases |segments|
  {
    if segments == [] {
    } else {
      GenerousKeeps(n, s, segments[0]);
      InvAlways(n, s, segments[0]);
      if Measure(s) > 0 { FairMoves(n, s, segments[0]); }
      FairTransfers(n, Exec(n, s, segments[0]), segments[1..]);
    }
  }

  /** After any run of a live client with whole sends on the server, every fair
      continuation without new messages that is long enough has handled exactly
      the submitted messages. */
  lemma FairRunsDeliver(n: nat, steps: seq<Step>, segments: seq<seq<Step>>)
    requires n > 0 && Live(Exec(n, INIT, steps)) && Server.AllWhole(Exec(n, INIT, steps).server.log)
    requires forall m <- Exec(n, INIT, steps).submitted :: |m| == n
    requires AllFair(n, Exec(n, INIT, steps), segments) && |segments| >= Measure(Exec(n, INIT, steps))
    ensures Exec(n, INIT, steps + Flatten(segments)).frame == Frame("", Exec(n, INIT, steps).submitted)
  {
    var s := Exec(n, INIT, steps);
    InitInv(n);
    InvAlways(n, INIT, steps);
    FairTransfers(n, s, segments);
    TransfersDrain(n, s, segments);
    InvAlways(n, s, Flatten(segments));
    ExecAppend(n, INIT, steps, Flatten(segments));
    NothingLeft(n, Exec(n, s, Flatten(segments)));
  }

  // ----- Fair schedules exist -----

  /** What a channel grants when the client's thread, or the server's, is next. */
  function ClientStep(s: State): Step {
    match s.pc
    case LoopTest => TestRunning
    case SendTest(_) => TestBuffer
    case Offering(_, offer) => ClientSend(Accepted(|offer|))
    case Erasing(_, _) => ClientErase
    case Receiving(_) => ClientRecv(if s.ret == "" then NoData else Data(s.ret[..1]))
    case Closed => TestRunning
  }

  function ServerStep(s: State): Step {
    if s.sending then ServerSend(Accepted(|s.server.buf|))
    else ServerRecv(if s.fwd == "" then NoData else Data(s.fwd[..1]))
  }

  lemma {:induction false} TurnsCanBeGranted(n: nat, s: State, a: nat, b: nat) returns (steps: seq<Step>)
    requires n > 0 && RaceInv(s) && Live(s)
    ensures NoSubmit(steps) && Generous(n, s, steps)
    ensures ClientTurns(n, s, steps) >= a && ServerTurns(n, s, steps) >= b
    decreases a + b
  {
    if a + b == 0 {
      steps := [];
    } else {
      var step := if a > 0 then ClientStep(s) else ServerStep(s);
      GrantedStepKeeps(n, s, step);
      var more := TurnsCanBeGranted(n, Next(n, s, step), if a > 0 then a - 1 else a, if a > 0 then b else b - 1);
      steps := [step] + more;
      assert steps[1..] == more;
    }
  }

  lemma {:induction false} RaceInvAlways(n: nat, s: State, steps: seq<Step>)
    requires n > 0 && RaceInv(s)
    ensures RaceInv(Exec(n, s, steps))
    decreases |steps|
  {
    if steps == [] {
    } else {
      RaceInvKept(n, s, steps[0]);
      RaceInvAlways(n, Next(n, s, steps[0]), steps[1..]);
    }
  }

  /** From every live state there are fair runs of any length. */
  lemma {:induction false} FairRunsExist(n: nat, s: State, k: nat) returns (segments: seq<seq<Step>>)
    requires n > 0 && RaceInv(s) && Live(s)
    ensures |segments| == k && AllFair(n, s, segments)
    decreases k
  {
    if k == 0 {
      segments := [];
    } else {
      var first := TurnsCanBeGranted(n, s, 5, 2);
      GenerousKeeps(n, s, first);
      RaceInvAlways(n, s, first);
      var more := FairRunsExist(n, Exec(n, s, first), k - 1);
      segments := [first] + more;
      assert segments[1..] == more;
    }
  }
}
