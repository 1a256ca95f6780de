/** Termination of the datagram pipeline: transfers are bounded once the producer
    stops, and while the client runs some schedule delivers everything. */
module DgramDrain {
  import opened Udt
  import opened DgramSend
  import opened DgramPipeline

  /** The moves still ahead of the messages in the pipeline, at most. */
  function Measure(s: State): nat {
    5 * |s.queue| + 4 * |s.buff| + 3 * |s.fwd| + 2 * |s.echo| + |s.ret|
  }

  /** The messages that a step takes out of a stage. */
  function Moved(s: State, step: Step): nat {
    if !Enabled(s, step) then 0
    else match step
      case Grab => if s.buff == [] then |s.queue| else 0
      case ClientSend(r) => if s.buff != [] && SendCode(s.buff[0], r) == 1 then 1 else 0
      case ClientRecv(d) => if d.Data? then 1 else 0
      case ServerRecv(d) => if d.Data? then 1 else 0
      case ServerSend(r) => if s.echo != [] && SendCode(s.echo[0], r) == 1 then 1 else 0
      case _ => 0
  }

  function AllMoved(s: State, steps: seq<Step>): nat
    decreases |steps|
  {
    if steps == [] then 0 else Moved(s, steps[0]) + AllMoved(Next(s, steps[0]), steps[1..])
  }

  lemma SendMeasure(from: seq<string>, to: seq<string>, r: SendResult)
    requires from != [] && Possible(from[0], r) && Truncates(from[0], r) == 0
    ensures |to + TakenMsgs(from[0], r)| == |to| + if SendCode(from[0], r) == 1 then 1 else 0
  {
  }

  lemma StepMeasure(s: State, step: Step)
    requires !step.Submit? && Next(s, step).truncated == s.truncated
    ensures Measure(Next(s, step)) + Moved(s, step) <= Measure(s)
  {
    if Enabled(s, step) {
      match step {
        case ClientSend(r) => if s.buff != [] { SendMeasure(s.buff, s.fwd, r); }
        case ServerSend(r) => if s.echo != [] { SendMeasure(s.echo, s.ret, r); }
        case _ =>
      }
    }
  }

  predicate NoSubmit(steps: seq<Step>) { forall step <- steps :: !step.Submit? }

  lemma NoSubmitTail(steps: seq<Step>)
    requires NoSubmit(steps) && steps != []
    ensures !steps[0].Submit? && NoSubmit(steps[1..])
  {
    assert steps[0] in steps && forall step <- steps[1..] :: step in steps;
  }

  /** Once the producer stops, all further transfers together take out no more
      messages than Measure(s), however many refusals the run contains. */
  lemma {:induction false} TransfersAreBounded(s: State, steps: seq<Step>)
    requires NoSubmit(steps) && Exec(s, steps).truncated == s.truncated
    ensures Measure(Exec(s, steps)) + AllMoved(s, steps) <= Measure(s)
    decreases |steps|
  {
    if steps == [] {
    } else {
      var t := Next(s, steps[0]);
      NoSubmitTail(steps);
      SubmittedGrows(s, steps[0]);
      TruncatedGrows(t, steps[1..]);
      StepMeasure(s, steps[0]);
      TransfersAreBounded(t, steps[1..]);
    }
  }

  /** The client's loop has not ended and will not end by itself. */
  predicate Live(s: State) { s.running && !s.pc.Closed? }

  /** A step of the client's thread that no channel has to grant. */
  function Advance(pc: Pc): Step {
    match pc
    case LoopTest => TestRunning
    case GrabTest => Grab
    case SendLoop => ClientSend(WouldBlock)
    case RecvLoop => ClientRecv(NoData)
    case Closed => TestRunning
  }

  function Turns(from: Pc, to: Pc): nat {
    if Place(from) <= Place(to) then Place(to) - Place(from) else Place(to) + 4 - Place(from)
  }

  function Place(pc: Pc): nat {
    match pc
    case LoopTest => 0
    case GrabTest => 1
    case SendLoop => 2
    case RecvLoop => 3
    case Closed => 0
  }

  /** What all schedules of this module keep. */
  predicate Kept(s: State, t: State) {
    Live(t) && t.truncated == s.truncated && t.submitted == s.submitted
  }

  predicate SameStages(s: State, t: State) {
    t.queue == s.queue && t.buff == s.buff && t.fwd == s.fwd && t.echo == s.echo && t.ret == s.ret
    && t.sending == s.sending
  }

  lemma AdvanceTurns(s: State, to: Pc) returns (t: State)
    requires Live(s) && !to.Closed? && s.pc != to
    ensures t == Next(s, Advance(s.pc)) && Kept(s, t)
    ensures SameStages(s, t) || Measure(t) < Measure(s)
    ensures Turns(t.pc, to) < Turns(s.pc, to)
  {
    match s.pc {
      case LoopTest => t := s.(pc := GrabTest);
      case GrabTest =>
        t := if s.buff == [] then s.(buff := s.queue, queue := [], pc := SendLoop) else s.(pc := SendLoop);
        assert s.buff == [] && s.queue == [] ==> SameStages(s, t);
      case SendLoop =>
        t := s.(pc := RecvLoop);
        assert t == Next(s, ClientSend(WouldBlock)) by { assert s.fwd + [] == s.fwd; }
      case RecvLoop =>
        t := s.(pc := LoopTest);
        assert t == Next(s, ClientRecv(NoData)) by { assert s.delivered + [] == s.delivered; }
    }
  }

  /** The client's thread comes to any given place, or moves messages on the way. */
  lemma {:induction false} Reach(s: State, to: Pc) returns (steps: seq<Step>)
    requires Live(s) && !to.Closed?
    ensures NoSubmit(steps) && Kept(s, Exec(s, steps))
    ensures var t := Exec(s, steps); Measure(t) < Measure(s) || (t.pc == to && SameStages(s, t))
    decreases Turns(s.pc, to)
  {
    if s.pc == to {
      steps := [];
    } else {
      var t := AdvanceTurns(s, to);
      if SameStages(s, t) {
        var rest := Reach(t, to);
        steps := [Advance(s.pc)] + rest;
        assert steps[1..] == rest;
      } else {
        steps := [Advance(s.pc)];
        assert Exec(s, steps) == Exec(t, []);
      }
    }
  }

  /** One more step, by which messages move. */
  lemma ThenMove(s: State, before: seq<Step>, step: Step) returns (steps: seq<Step>)
    requires NoSubmit(before) && !step.Submit? && Kept(s, Exec(s, before)) && Kept(s, Next(Exec(s, before), step))
    requires Moved(Exec(s, before), step) > 0 && Measure(Exec(s, before)) <= Measure(s)
    ensures NoSubmit(steps) && Kept(s, Exec(s, steps)) && Measure(Exec(s, steps)) < Measure(s)
  {
    steps := before + [step];
    ExecAppend(s, before, [step]);
    var t := Exec(s, before);
    assert Exec(t, [step]) == Exec(Next(t, step), []);
    StepMeasure(t, step);
  }

  lemma ClientProgress(s: State, to: Pc, step: Step) returns (steps: seq<Step>)
    requires Live(s) && !to.Closed? && !step.Submit?
    requires forall t: State :: t.pc == to && SameStages(s, t) && Kept(s, t) ==>
               Moved(t, step) > 0 && Kept(s, Next(t, step))
    ensures NoSubmit(steps) && Kept(s, Exec(s, steps)) && Measure(Exec(s, steps)) < Measure(s)
  {
    steps := Reach(s, to);
    if Measure(Exec(s, steps)) >= Measure(s) {
      steps := ThenMove(s, steps, step);
    }
  }

  lemma ServerProgress(s: State) returns (steps: seq<Step>)
    requires Live(s) && (s.echo != [] || s.fwd != [])
    ensures NoSubmit(steps) && Kept(s, Exec(s, steps)) && Measure(Exec(s, steps)) < Measure(s)
  {
    var t := s.(sending := s.echo != []);
    steps := if t.sending == s.sending then []
             else if s.sending then [ServerSend(WouldBlock)] else [ServerRecv(NoData)];
    assert Exec(s, steps) == t by {
      assert s.echo + [] == s.echo;
      if steps != [] { assert Exec(s, steps) == Exec(Next(s, steps[0]), []); }
    }
    steps := ThenMove(s, steps, if s.echo != [] then ServerSend(Accepted(|s.echo[0]|))
                                else ServerRecv(Data(Clip(s.fwd[0]))));
  }

  /** While any stage holds a message, a few steps move one. */
  lemma Progress(s: State) returns (steps: seq<Step>)
    requires Live(s) && Measure(s) > 0
    ensures NoSubmit(steps) && Kept(s, Exec(s, steps)) && Measure(Exec(s, steps)) < Measure(s)
  {
    if s.ret != [] {
      steps := ClientProgress(s, RecvLoop, ClientRecv(Data(Clip(s.ret[0]))));
    } else if s.echo != [] || s.fwd != [] {
      steps := ServerProgress(s);
    } else if s.buff != [] {
      steps := ClientProgress(s, SendLoop, ClientSend(Accepted(|s.buff[0]|)));
    } else {
      steps := ClientProgress(s, GrabTest, Grab);
    }
  }

  lemma {:induction false} Drain(s: State) returns (steps: seq<Step>)
    requires Live(s)
    ensures NoSubmit(steps) && Kept(s, Exec(s, steps)) && Measure(Exec(s, steps)) == 0
    decreases Measure(s)
  {
    if Measure(s) == 0 {
      steps := [];
    } else {
      var before := Progress(s);
      var rest := Drain(Exec(s, before));
      steps := before + rest;
      ExecAppend(s, before, rest);
    }
  }

  /** Every run of a live client without partial sends extends, without new
      messages, to one in which exactly the arriving ones have been delivered. */
  lemma EverythingCanArrive(steps: seq<Step>) returns (more: seq<Step>)
    requires Live(Exec(INIT, steps)) && Exec(INIT, steps).truncated == 0
    ensures NoSubmit(more)
    ensures Exec(INIT, steps + more).delivered == Arriving(Exec(INIT, steps).submitted)
  {
    more := Drain(Exec(INIT, steps));
    ExecAppend(INIT, steps, more);
    EndToEnd(steps + more);
    var t := Exec(INIT, steps + more);
    assert InTransit(t) == [] by { assert t.ret == t.echo == t.fwd == t.buff == t.queue == []; }
  }
}
