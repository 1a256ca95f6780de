/** Liveness of the datagrams under every fair schedule, as for the byte stream. */
module DgramFairness {
  import opened Seqs
  import opened Udt
  import opened DgramSend
  import opened DgramPipeline
  import opened DgramDrain

  // ----- Transfers are enough -----

  /** A run in segments, each of which moves a message if any is left. */
  ghost predicate Transfers(s: State, segments: seq<seq<Step>>)
    decreases |segments|
  {
    segments == [] ||
    var t := Exec(s, segments[0]);
    && NoSubmit(segments[0])
    && t.truncated == s.truncated
    && (Measure(s) > 0 ==> AllMoved(s, segments[0]) > 0)
    && Transfers(t, segments[1..])
  }

  /** As many segments as there are moves ahead empty the pipeline. */
  lemma {:induction false} TransfersDrain(s: State, segments: seq<seq<Step>>)
    requires Transfers(s, segments) && |segments| >= Measure(s)
    ensures var t := Exec(s, Flatten(segments));
            Measure(t) == 0 && t.truncated == s.truncated && t.submitted == s.submitted
    decreases |segments|
  {
    if segments == [] {
    } else {
      var t := Exec(s, segments[0]);
      TransfersAreBounded(s, segments[0]);
      SubmittedStays(s, segments[0]);
      TransfersDrain(t, segments[1..]);
      assert segments == [segments[0]] + segments[1..];
      FlattenCons(segments[0], segments[1..]);
      ExecAppend(s, segments[0], Flatten(segments[1..]));
    }
  }

  lemma {:induction false} SubmittedStays(s: State, steps: seq<Step>)
    requires NoSubmit(steps)
    ensures Exec(s, steps).submitted == s.submitted
    decreases |steps|
  {
    if steps == [] {
    } else {
      NoSubmitTail(steps);
      SubmittedStays(Next(s, steps[0]), steps[1..]);
    }
  }

  // ----- Fair schedules make transfers -----

  /** A result by which a channel neither withholds what it could transfer nor
      fails. A server that is told of a passing error forever would never send. */
  predicate Grants(s: State, step: Step) {
    Enabled(s, step) ==>
      match step
      case Submit(_) => false
      case ClientSend(r) => s.buff != [] ==> r == Accepted(|s.buff[0]|)
      case ClientRecv(d) => (s.ret != [] ==> d.Data?) && !(d.RecvError? && d.fatal)
      case ServerRecv(d) => if s.fwd != [] then d.Data? else !d.RecvError?
      case ServerSend(r) => s.echo != [] ==> r == Accepted(|s.echo[0]|)
      case _ => true
  }

  function PassingErrors(k: nat): seq<Step> { seq(k, _ => ServerRecv(RecvError(false))) }

  /** The reason: after such an error the server receives again, and nothing else
      changes, however often that happens. */
  lemma {:induction false} PassingErrorsStall(s: State, k: nat)
    ensures Exec(s, PassingErrors(k)) == s
    decreases k
  {
    if k == 0 {
    } else {
      assert s.echo + [] == s.echo;
      assert PassingErrors(k)[1..] == PassingErrors(k - 1);
      PassingErrorsStall(s, k - 1);
    }
  }

  predicate Generous(s: State, steps: seq<Step>)
    decreases |steps|
  {
    steps == [] || (Grants(s, steps[0]) && Generous(Next(s, steps[0]), steps[1..]))
  }

  predicate ClientTurn(s: State, step: Step) {
    Enabled(s, step) && (step.TestRunning? || step.Grab? || step.ClientSend? || step.ClientRecv?)
  }

  predicate ServerTurn(s: State, step: Step) { Enabled(s, step) && (step.ServerRecv? || step.ServerSend?) }

  /** How often the client's thread, and the server's, really take a step. */
  function ClientTurns(s: State, steps: seq<Step>): nat
    decreases |steps|
  {
    if steps == [] then 0
    else (if ClientTurn(s, steps[0]) then 1 else 0) + ClientTurns(Next(s, steps[0]), steps[1..])
  }

  function ServerTurns(s: State, steps: seq<Step>): nat
    decreases |steps|
  {
    if steps == [] then 0
    else (if ServerTurn(s, steps[0]) then 1 else 0) + ServerTurns(Next(s, steps[0]), steps[1..])
  }

  /** A segment in which both threads get enough turns. */
  predicate Fair(s: State, steps: seq<Step>) {
    NoSubmit(steps) && Generous(s, steps) && ClientTurns(s, steps) >= 4 && ServerTurns(s, steps) >= 2
  }

  predicate SameMessages(s: State, t: State) {
    t.queue == s.queue && t.buff == s.buff && t.fwd == s.fwd && t.echo == s.echo && t.ret == s.ret
  }

  /** A granted step that moves nothing leaves all messages where they are. */
  lemma IdleStep(s: State, step: Step)
    requires Grants(s, step) && Moved(s, step) == 0
    ensures SameMessages(s, Next(s, step))
  {
  }

  /** A granted step keeps the client alive and truncates nothing. */
  lemma GrantedStepKeeps(s: State, step: Step)
    requires Live(s) && Grants(s, step)
    ensures Kept(s, Next(s, step))
  {
  }

  /** The turns of the client's thread, at most, before it has to move a message. */
  function ClientPatience(s: State): nat {
    if s.ret != [] then Turns(s.pc, RecvLoop)
    else if s.buff != [] then Turns(s.pc, SendLoop) else Turns(s.pc, GrabTest)
  }

  /** A turn without a transfer brings the thread closer to each of its calls
      that would transfer something. */
  lemma TurnComesCloser(s: State, step: Step)
    requires Live(s) && Grants(s, step) && Moved(s, step) == 0 && ClientTurn(s, step)
    ensures var pc := Next(s, step).pc;
            && (s.ret != [] ==> Turns(pc, RecvLoop) < Turns(s.pc, RecvLoop))
            && (s.buff != [] ==> Turns(pc, SendLoop) < Turns(s.pc, SendLoop))
            && (s.queue != [] && s.buff == [] ==> Turns(pc, GrabTest) < Turns(s.pc, GrabTest))
  {
  }

  lemma ClientComesCloser(s: State, step: Step)
    requires Live(s) && (s.ret != [] || s.buff != [] || s.queue != [])
    requires Grants(s, step) && Moved(s, step) == 0
    ensures ClientPatience(Next(s, step)) <= ClientPatience(s) - if ClientTurn(s, step) then 1 else 0
  {
    IdleStep(s, step);
    if ClientTurn(s, step) { TurnComesCloser(s, step); } else { assert Next(s, step).pc == s.pc; }
  }

  function ServerPatience(s: State): nat {
    if (s.echo != []) == s.sending then 0 else 1
  }

  lemma ServerComesCloser(s: State, step: Step)
    requires s.echo != [] || s.fwd != []
    requires Grants(s, step) && Moved(s, step) == 0
    ensures ServerPatience(Next(s, step)) <= ServerPatience(s) - if ServerTurn(s, step) then 1 else 0
  {
  }

  lemma {:induction false} ClientMoves(s: State, steps: seq<Step>)
    requires Live(s) && (s.ret != [] || s.buff != [] || s.queue != [])
    requires Generous(s, steps) && ClientTurns(s, steps) > ClientPatience(s)
    ensures AllMoved(s, steps) > 0
    decreases |steps|
  {
    if Moved(s, steps[0]) > 0 {
    } else {
      ClientComesCloser(s, steps[0]);
      IdleStep(s, steps[0]);
      GrantedStepKeeps(s, steps[0]);
      ClientMoves(Next(s, steps[0]), steps[1..]);
    }
  }

  lemma {:induction false} ServerMoves(s: State, steps: seq<Step>)
    requires s.echo != [] || s.fwd != []
    requires Generous(s, steps) && ServerTurns(s, steps) > ServerPatience(s)
    ensures AllMoved(s, steps) > 0
    decreases |steps|
  {
    if Moved(s, steps[0]) > 0 {
    } else {
      ServerComesCloser(s, steps[0]);
      IdleStep(s, steps[0]);
      ServerMoves(Next(s, steps[0]), steps[1..]);
    }
  }

  /** Four turns of the client and two of the server, in any order and mixed with
      anything else but submissions, move a message while there is one. */
  lemma FairMoves(s: State, steps: seq<Step>)
    requires Live(s) && Measure(s) > 0 && Fair(s, steps)
    ensures AllMoved(s, steps) > 0
  {
    if s.ret != [] || s.buff != [] || s.queue != [] {
      ClientMoves(s, steps);
    } else {
      ServerMoves(s, steps);
    }
  }

  lemma {:induction false} GenerousKeeps(s: State, steps: seq<Step>)
    requires Live(s) && Generous(s, steps)
    ensures Kept(s, Exec(s, steps))
    decreases |steps|
  {
    if steps == [] {
    } else {
      GrantedStepKeeps(s, steps[0]);
      GenerousKeeps(Next(s, steps[0]), steps[1..]);
    }
  }

  /** A fair run: each segment is fair where it starts. */
  predicate AllFair(s: State, segments: seq<seq<Step>>)
    decreases |segments|
  {
    segments == [] || (Fair(s, segments[0]) && AllFair(Exec(s, segments[0]), segments[1..]))
  }

  lemma {:induction false} FairTransfers(s: State, segments: seq<seq<Step>>)
    requires Live(s) && AllFair(s, segments)
    ensures Transfers(s, segments)
    decreases |segments|
  {
    if segments == [] {
    } else {
      GenerousKeeps(s, segments[0]);
      if Measure(s) > 0 { FairMoves(s, segments[0]); }
      FairTransfers(Exec(s, segments[0]), segments[1..]);
    }
  }

  /** After any run of a live client without partial sends, every fair continuation
      without new messages that is long enough has delivered exactly the messages
      that arrive. */
  lemma FairRunsDeliver(steps: seq<Step>, segments: seq<seq<Step>>)
    requires Live(Exec(INIT, steps)) && Exec(INIT, steps).truncated == 0
    requires AllFair(Exec(INIT, steps), segments) && |segments| >= Measure(Exec(INIT, steps))
    ensures Exec(INIT, steps + Flatten(segments)).delivered == Arriving(Exec(INIT, steps).submitted)
  {
    var s := Exec(INIT, steps);
    FairTransfers(s, segments);
    TransfersDrain(s, segments);
    ExecAppend(INIT, steps, Flatten(segments));
    EndToEnd(steps + Flatten(segments));
    var t := Exec(INIT, steps + Flatten(segments));
    assert InTransit(t) == [] by { assert t.ret == t.echo == t.fwd == t.buff == t.queue == []; }
  }

  // ----- Fair schedules exist -----

  /** What a channel grants when the client's thread, or the server's, is next. */
  function ClientStep(s: State): Step {
    match s.pc
    case LoopTest => TestRunning
    case GrabTest => Grab
    case SendLoop => ClientSend(if s.buff == [] then WouldBlock else Accepted(|s.buff[0]|))
    case RecvLoop => ClientRecv(if s.ret == [] then NoData else Data(Clip(s.ret[0])))
    case Closed => TestRunning
  }

  function ServerStep(s: State): Step {
    if s.sending then ServerSend(if s.echo == [] then WouldBlock else Accepted(|s.echo[0]|))
    else ServerRecv(if s.fwd == [] then NoData else Data(Clip(s.fwd[0])))
  }

  lemma {:induction false} TurnsCanBeGranted(s: State, a: nat, b: nat) returns (steps: seq<Step>)
    requires Live(s)
    ensures NoSubmit(steps) && Generous(s, steps) && ClientTurns(s, steps) >= a && ServerTurns(s, steps) >= b
    decreases a + b
  {
    if a + b == 0 {
      steps := [];
    } else {
      var step := if a > 0 then ClientStep(s) else ServerStep(s);
      GrantedStepKeeps(s, step);
      var more := TurnsCanBeGranted(Next(s, step), if a > 0 then a - 1 else a, if a > 0 then b else b - 1);
      steps := [step] + more;
      assert steps[1..] == more;
    }
  }

  /** From every live state there are fair runs of any length. */
  lemma {:induction false} FairRunsExist(s: State, k: nat) returns (segments: seq<seq<Step>>)
    requires Live(s)
    ensures |segments| == k && AllFair(s, segments)
    decreases k
  {
    if k == 0 {
      segments := [];
    } else {
      var first := TurnsCanBeGranted(s, 4, 2);
      GenerousKeeps(s, first);
      var more := FairRunsExist(Exec(s, first), k - 1);
      segments := [first] + more;
      assert segments[1..] == more;
    }
  }
}
