/** The byte-stream benchmark refines a FIFO of whole messages: submissions are
    puts, a recv of the client delivers zero or more messages, and every other
    step, in particular every partial transfer of bytes, stutters. */
module StreamRefinement {
  import opened Framing
  import opened MessageFifo
  import opened StreamPipeline
  import Server = StreamServer

  /** The condition under which frames and messages agree. */
  predicate Good(n: nat, s: State) {
    Server.AllWhole(s.server.log) && forall m <- s.submitted :: |m| == n
  }

  function Abstract(s: State): Fifo
    requires |s.frame.emitted| <= |s.submitted|
  {
    Fifo(s.submitted[|s.frame.emitted|..], s.frame.emitted)
  }

  /** What an observer of the FIFO sees of one step. */
  function Trace(n: nat, s: State, step: Step): seq<Action>
    requires n > 0
  {
    if !Enabled(s, step) then []
    else match step
      case Submit(msg) => [Put(msg)]
      case ClientRecv(d) =>
        var k := |Next(n, s, step).frame.emitted| - |s.frame.emitted|;
        if k > 0 then Deliveries(k) else []
      case _ => []
  }

  function RunTrace(n: nat, s: State, steps: seq<Step>): seq<Action>
    requires n > 0
    decreases |steps|
  {
    if steps == [] then [] else Trace(n, s, steps[0]) + RunTrace(n, Next(n, s, steps[0]), steps[1..])
  }

  /** Histories only grow. */
  lemma HistoryGrows(n: nat, s: State, step: Step)
    requires n > 0
    ensures var t := Next(n, s, step);
            s.server.log <= t.server.log && s.submitted <= t.submitted && s.frame.emitted <= t.frame.emitted
  {
  }

  lemma {:induction false} GoodBefore(n: nat, s: State, steps: seq<Step>)
    requires n > 0 && Good(n, Exec(n, s, steps))
    ensures Good(n, s)
    decreases |steps|
  {
    if steps == [] {
    } else {
      var t := Next(n, s, steps[0]);
      GoodBefore(n, t, steps[1..]);
      HistoryGrows(n, s, steps[0]);
      GoodShrinks(n, s, t);
    }
  }

  lemma GoodShrinks(n: nat, s: State, t: State)
    requires Good(n, t) && s.server.log <= t.server.log && s.submitted <= t.submitted
    ensures Good(n, s)
  {
    forall e | e in s.server.log ensures e.whole { assert e in t.server.log; }
    forall m | m in s.submitted ensures |m| == n { assert m in t.submitted; }
  }

  lemma EmittedOfSubmitted(n: nat, s: State)
    requires n > 0 && Inv(n, s) && Good(n, s)
    ensures s.frame.emitted <= s.submitted
  {
    EmittedBlocks(n, s);
    BlocksOfMessages(s.submitted, n);
  }

  /** One step of the pipeline is the traced steps of the FIFO. */
  lemma StepRefines(n: nat, s: State, step: Step)
    requires n > 0 && Inv(n, s) && Good(n, Next(n, s, step))
    ensures Good(n, s) && Inv(n, Next(n, s, step))
    ensures s.frame.emitted <= s.submitted && Next(n, s, step).frame.emitted <= Next(n, s, step).submitted
    ensures Abstract(Next(n, s, step)) == Perform(Abstract(s), Trace(n, s, step))
  {
    var t := Next(n, s, step);
    InvAlways(n, s, [step]);
    assert Exec(n, s, [step]) == t;
    HistoryGrows(n, s, step);
    GoodShrinks(n, s, t);
    EmittedOfSubmitted(n, s);
    EmittedOfSubmitted(n, t);
    StepTraced(n, s, step);
  }

  lemma SubmitTraced(n: nat, s: State, msg: string)
    requires n > 0 && s.frame.emitted <= s.submitted && Enabled(s, Submit(msg))
    ensures Abstract(Next(n, s, Submit(msg))) == Perform(Abstract(s), [Put(msg)])
  {
    var t, k := Next(n, s, Submit(msg)), |s.frame.emitted|;
    assert t.submitted[k..] == s.submitted[k..] + [msg];
    assert [Put(msg)][..0] == [];
  }

  lemma DeliveriesTraced(s: State, t: State)
    requires t.submitted == s.submitted && s.frame.emitted <= t.frame.emitted <= s.submitted
    ensures Abstract(t) == Perform(Abstract(s), Deliveries(|t.frame.emitted| - |s.frame.emitted|))
  {
    var i, j := |s.frame.emitted|, |t.frame.emitted|;
    DeliverMany(Abstract(s), j - i);
    assert s.submitted[i..][j - i..] == s.submitted[j..];
    assert s.submitted[..i] + s.submitted[i..][..j - i] == s.submitted[..j];
  }

  lemma StepTraced(n: nat, s: State, step: Step)
    requires n > 0
    requires s.frame.emitted <= s.submitted && Next(n, s, step).frame.emitted <= Next(n, s, step).submitted
    ensures Abstract(Next(n, s, step)) == Perform(Abstract(s), Trace(n, s, step))
  {
    var t := Next(n, s, step);
    HistoryGrows(n, s, step);
    if Enabled(s, step) {
      match step {
        case Submit(msg) => SubmitTraced(n, s, msg);
        case ClientRecv(d) => DeliveriesTraced(s, t);
        case _ =>
      }
    }
  }

  lemma {:induction false} RunRefines(n: nat, s: State, steps: seq<Step>)
    requires n > 0 && Inv(n, s) && Good(n, Exec(n, s, steps))
    ensures s.frame.emitted <= s.submitted && Exec(n, s, steps).frame.emitted <= Exec(n, s, steps).submitted
    ensures Abstract(Exec(n, s, steps)) == Perform(Abstract(s), RunTrace(n, s, steps))
    decreases |steps|
  {
    if steps == [] {
      EmittedOfSubmitted(n, s);
    } else {
      var t := Next(n, s, steps[0]);
      GoodBefore(n, t, steps[1..]);
      StepRefines(n, s, steps[0]);
      RunRefines(n, t, steps[1..]);
      PerformAppend(Abstract(s), Trace(n, s, steps[0]), RunTrace(n, t, steps[1..]));
    }
  }

  /** Every run of the benchmark with equal-size messages and whole sends on the
      server is a run of the FIFO: its puts are the submitted messages and its
      deliveries are the messages handled. */
  lemma StreamIsFifo(n: nat, steps: seq<Step>)
    requires n > 0 && Good(n, Exec(n, INIT, steps))
    ensures Exec(n, INIT, steps).frame.emitted == Perform(EMPTY, RunTrace(n, INIT, steps)).delivered
    ensures Exec(n, INIT, steps).submitted == Puts(RunTrace(n, INIT, steps))
  {
    InitInv(n);
    RunRefines(n, INIT, steps);
    FifoLaw(RunTrace(n, INIT, steps));
    InitIsEmpty();
    FifoHoldsSubmitted(Exec(n, INIT, steps));
  }

  lemma InitIsEmpty()
    ensures Abstract(INIT) == EMPTY
  {
  }

  lemma FifoHoldsSubmitted(s: State)
    requires s.frame.emitted <= s.submitted
    ensures Abstract(s).delivered + Abstract(s).queue == s.submitted
  {
  }
}
