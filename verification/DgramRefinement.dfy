/** The datagram benchmark refines the same FIFO of messages: pushes are puts,
    deliveries are deliveries, and every other step stutters. */
module DgramRefinement {
  import opened Seqs
  import opened Udt
  import opened DgramSend
  import opened DgramPipeline
  import opened MessageFifo

  function Abstract(s: State): Fifo { Fifo(InTransit(s), s.delivered) }

  /** What an observer of the FIFO sees of one step. Empty messages are not seen. */
  function Trace(s: State, step: Step): seq<Action> {
    if Entering(s, step) != [] then [Put(Clip(step.msg))]
    else if Leaving(s, step) != [] then [Deliver]
    else []
  }

  function RunTrace(s: State, steps: seq<Step>): seq<Action>
    decreases |steps|
  {
    if steps == [] then [] else Trace(s, steps[0]) + RunTrace(Next(s, steps[0]), steps[1..])
  }

  lemma PerformOne(f: Fifo, a: Action)
    ensures Perform(f, [a]) == Act(f, a)
  {
    assert [a][..0] == [];
  }

  lemma StepRefines(s: State, step: Step)
    requires Next(s, step).truncated == s.truncated
    ensures Abstract(Next(s, step)) == Perform(Abstract(s), Trace(s, step))
  {
    EveryStepMoves(s, step);
    var t := Next(s, step);
    var enter, leave := Entering(s, step), Leaving(s, step);
    if enter != [] {
      ArrivingOne(step.msg);
      PerformOne(Abstract(s), Put(Clip(step.msg)));
      assert leave == [] && [] + InTransit(t) == InTransit(t);
      assert s.delivered + [] == s.delivered;
    } else if leave != [] {
      PerformOne(Abstract(s), Deliver);
      assert InTransit(s) + [] == InTransit(s);
      assert InTransit(s) == leave + InTransit(t) && |leave| == 1;
    } else {
      assert [] + InTransit(t) == InTransit(t) && InTransit(s) + [] == InTransit(s) && s.delivered + [] == s.delivered;
    }
  }

  lemma {:induction false} RunRefines(s: State, steps: seq<Step>)
    requires Exec(s, steps).truncated == s.truncated
    ensures Abstract(Exec(s, steps)) == Perform(Abstract(s), RunTrace(s, steps))
    decreases |steps|
  {
    if steps == [] {
    } else {
      var t := Next(s, steps[0]);
      SubmittedGrows(s, steps[0]);
      TruncatedGrows(t, steps[1..]);
      StepRefines(s, steps[0]);
      RunRefines(t, steps[1..]);
      PerformAppend(Abstract(s), Trace(s, steps[0]), RunTrace(t, steps[1..]));
    }
  }

  lemma {:induction false} PutsAppend(a: seq<Action>, b: seq<Action>)
    ensures Puts(a + b) == Puts(a) + Puts(b)
  {
    if b == [] {
      assert a + b == a;
    } else {
      assert (a + b)[..|a + b| - 1] == a + b[..|b| - 1];
      PutsAppend(a, b[..|b| - 1]);
    }
  }

  lemma PutsOfStep(s: State, step: Step)
    ensures Puts(Trace(s, step)) == Entering(s, step)
  {
    if Entering(s, step) != [] {
      ArrivingOne(step.msg);
      assert Trace(s, step)[..0] == [];
    }
  }

  lemma {:induction false} PutsAreSubmitted(s: State, steps: seq<Step>)
    ensures Arriving(Exec(s, steps).submitted) == Arriving(s.submitted) + Puts(RunTrace(s, steps))
    decreases |steps|
  {
    if steps == [] {
    } else {
      var t := Next(s, steps[0]);
      PutsAreSubmitted(t, steps[1..]);
      SubmittedGrows(s, steps[0]);
      PutsAppend(Trace(s, steps[0]), RunTrace(t, steps[1..]));
      PutsOfStep(s, steps[0]);
      AppendTwice(Arriving(s.submitted), Entering(s, steps[0]), Puts(RunTrace(t, steps[1..])));
    }
  }

  lemma InitIsEmpty()
    ensures Abstract(INIT) == EMPTY && Arriving(INIT.submitted) == []
  {
  }

  /** Every run without truncated sends is a run of the FIFO: its puts are the
      submitted messages as they arrive, its deliveries the callback's. */
  lemma DgramIsFifo(steps: seq<Step>)
    requires Exec(INIT, steps).truncated == 0
    ensures Exec(INIT, steps).delivered == Perform(EMPTY, RunTrace(INIT, steps)).delivered
    ensures Arriving(Exec(INIT, steps).submitted) == Puts(RunTrace(INIT, steps))
  {
    RunRefines(INIT, steps);
    PutsAreSubmitted(INIT, steps);
    InitIsEmpty();
  }
}
