/** How the datagram client stops: only after an error of its own socket, and then
    at the next test of its loop. */
module DgramShutdown {
  import opened Udt
  import opened DgramPipeline
  import opened DgramDrain
  import opened DgramFairness

  /** A send that fails or is accepted in part, or a fatal error of a recvmsg. */
  predicate Stops(s: State, step: Step) {
    && Enabled(s, step)
    && (|| step == ClientRecv(RecvError(true))
        || (step.ClientSend? && s.buff != [] && step.r != WouldBlock && step.r != Accepted(|s.buff[0]|)))
  }

  predicate StopsAt(s: State, steps: seq<Step>, k: nat)
    requires k < |steps|
  {
    Stops(Exec(s, steps[..k]), steps[k])
  }

  lemma StopsLater(s: State, steps: seq<Step>, k: nat)
    requires 0 < k < |steps|
    ensures StopsAt(s, steps, k) == StopsAt(Next(s, steps[0]), steps[1..], k - 1)
  {
    assert steps[..k][1..] == steps[1..][..k - 1];
  }

  lemma {:induction false} RunningIff(s: State, steps: seq<Step>)
    ensures Exec(s, steps).running <==> s.running && forall k :: 0 <= k < |steps| ==> !StopsAt(s, steps, k)
    decreases |steps|
  {
    if steps == [] {
    } else {
      var t, rest := Next(s, steps[0]), steps[1..];
      RunningIff(t, rest);
      assert StopsAt(s, steps, 0) == Stops(s, steps[0]);
      assert t.running == (s.running && !Stops(s, steps[0]));
      forall k | 0 < k < |steps| ensures StopsAt(s, steps, k) == StopsAt(t, rest, k - 1) {
        StopsLater(s, steps, k);
      }
      forall k | 0 <= k < |rest| ensures StopsAt(t, rest, k) == StopsAt(s, steps, k + 1) {
        StopsLater(s, steps, k + 1);
      }
    }
  }

  /** In every reachable state the client has been told to stop exactly when the
      run contains such an error. */
  lemma StopsOnErrors(steps: seq<Step>)
    ensures !Exec(INIT, steps).running <==> exists k :: 0 <= k < |steps| && StopsAt(INIT, steps, k)
  {
    RunningIff(INIT, steps);
  }

  lemma {:induction false} OpenWhileRunning(s: State, steps: seq<Step>)
    requires s.pc.Closed? ==> !s.running
    ensures Exec(s, steps).pc.Closed? ==> !Exec(s, steps).running
    decreases |steps|
  {
    if steps == [] {
    } else {
      OpenWhileRunning(Next(s, steps[0]), steps[1..]);
    }
  }

  /** Without such an error its loop never ends. */
  lemma NeverEndsByItself(steps: seq<Step>)
    requires forall k :: 0 <= k < |steps| ==> !StopsAt(INIT, steps, k)
    ensures Exec(INIT, steps).running && !Exec(INIT, steps).pc.Closed?
  {
    RunningIff(INIT, steps);
    OpenWhileRunning(INIT, steps);
  }

  /** The turns of the client's thread to the end of its loop once it has been
      told to stop, not counting those that send or receive a message. */
  function TurnsLeft(pc: Pc): nat {
    match pc
    case Closed => 0
    case LoopTest => 1
    case RecvLoop => 2
    case SendLoop => 3
    case GrabTest => 4
  }

  lemma OneTurn(s: State, step: Step)
    requires !s.running
    ensures var t := Next(s, step);
            !t.running && (s.pc.Closed? ==> t.pc.Closed?)
            && TurnsLeft(t.pc) + (if ClientTurn(s, step) then 1 else 0) <= TurnsLeft(s.pc) + Moved(s, step)
  {
  }

  /** A client told to stop comes to the end of its loop: each of its turns either
      moves a message or is one of four at the most, whatever the channels answer. */
  lemma {:induction false} StopsWithinARound(s: State, steps: seq<Step>)
    requires !s.running && ClientTurns(s, steps) >= TurnsLeft(s.pc) + AllMoved(s, steps)
    ensures TurnsLeft(s.pc) <= 4 && Exec(s, steps).pc.Closed?
    decreases |steps|
  {
    if steps == [] {
    } else {
      OneTurn(s, steps[0]);
      StopsWithinARound(Next(s, steps[0]), steps[1..]);
    }
  }

  /** After that it neither sends nor receives: its thread takes no step any more. */
  lemma {:induction false} ClosedIsFinal(s: State, steps: seq<Step>)
    requires s.pc.Closed?
    ensures ClientTurns(s, steps) == 0
    ensures var t := Exec(s, steps); t.pc.Closed? && t.delivered == s.delivered && t.buff == s.buff
    decreases |steps|
  {
    if steps == [] {
    } else {
      ClosedIsFinal(Next(s, steps[0]), steps[1..]);
    }
  }
}
