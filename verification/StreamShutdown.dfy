/** How the byte-stream client stops: only after an error of its own socket, and
    then within one round. */
module StreamShutdown {
  import opened Udt
  import opened StreamPipeline
  import opened StreamFairness

  /** The steps that report a hard error of a send or one of the three fatal
      errors of a recv. */
  predicate Stops(s: State, step: Step) {
    Enabled(s, step) && (step == ClientSend(SendError) || step == ClientRecv(RecvError(true)))
  }

  predicate StopsAt(n: nat, s: State, steps: seq<Step>, k: nat)
    requires n > 0 && k < |steps|
  {
    Stops(Exec(n, s, steps[..k]), steps[k])
  }

  lemma StopsLater(n: nat, s: State, steps: seq<Step>, k: nat)
    requires n > 0 && 0 < k < |steps|
    ensures StopsAt(n, s, steps, k) == StopsAt(n, Next(n, s, steps[0]), steps[1..], k - 1)
  {
    assert steps[..k][1..] == steps[1..][..k - 1];
  }

  lemma {:induction false} RunningIff(n: nat, s: State, steps: seq<Step>)
    requires n > 0
    ensures Exec(n, s, steps).running <==> s.running && forall k :: 0 <= k < |steps| ==> !StopsAt(n, s, steps, k)
    decreases |steps|
  {
    if steps == [] {
    } else {
      var t, rest := Next(n, s, steps[0]), steps[1..];
      RunningIff(n, t, rest);
      assert StopsAt(n, s, steps, 0) == Stops(s, steps[0]);
      assert t.running == (s.running && !Stops(s, steps[0]));
      forall k | 0 < k < |steps| ensures StopsAt(n, s, steps, k) == StopsAt(n, t, rest, k - 1) {
        StopsLater(n, s, steps, k);
      }
      forall k | 0 <= k < |rest| ensures StopsAt(n, t, rest, k) == StopsAt(n, s, steps, k + 1) {
        StopsLater(n, s, steps, k + 1);
      }
    }
  }

  /** In every reachable state the client has been told to stop exactly when the
      run contains such an error. */
  lemma StopsOnErrors(n: nat, steps: seq<Step>)
    requires n > 0
    ensures !Exec(n, INIT, steps).running <==> exists k :: 0 <= k < |steps| && StopsAt(n, INIT, steps, k)
  {
    RunningIff(n, INIT, steps);
  }

  lemma {:induction false} OpenWhileRunning(n: nat, s: State, steps: seq<Step>)
    requires n > 0 && (s.pc.Closed? ==> !s.running)
    ensures Exec(n, s, steps).pc.Closed? ==> !Exec(n, s, steps).running
    decreases |steps|
  {
    if steps == [] {
    } else {
      OpenWhileRunning(n, Next(n, s, steps[0]), steps[1..]);
    }
  }

  /** Without such an error its loop never ends. */
  lemma NeverEndsByItself(n: nat, steps: seq<Step>)
    requires n > 0 && forall k :: 0 <= k < |steps| ==> !StopsAt(n, INIT, steps, k)
    ensures Exec(n, INIT, steps).running && !Exec(n, INIT, steps).pc.Closed?
  {
    RunningIff(n, INIT, steps);
    OpenWhileRunning(n, INIT, steps);
  }

  /** The turns of the client's thread to the end of its loop once it has been
      told to stop. */
  function TurnsLeft(pc: Pc): nat {
    match pc
    case Closed => 0
    case LoopTest => 1
    case Receiving(second) => if second then 2 else 6
    case Erasing(second, _) => if second then 3 else 7
    case Offering(second, _) => if second then 4 else 8
    case SendTest(second) => if second then 5 else 9
  }

  lemma OneTurn(n: nat, s: State, step: Step)
    requires n > 0 && !s.running
    ensures var t := Next(n, s, step);
            !t.running && (s.pc.Closed? ==> t.pc.Closed?)
            && TurnsLeft(t.pc) <= TurnsLeft(s.pc) - if ClientTurn(s, step) then 1 else 0
  {
  }

  /** A client told to stop comes to the end of its loop within one round: nine of
      its own steps at the most, whatever the channels answer. */
  lemma {:induction false} StopsWithinARound(n: nat, s: State, steps: seq<Step>)
    requires n > 0 && !s.running && ClientTurns(n, s, steps) >= TurnsLeft(s.pc)
    ensures TurnsLeft(s.pc) <= 9 && Exec(n, s, steps).pc.Closed?
    decreases |steps|
  {
    if steps == [] {
    } else {
      OneTurn(n, s, steps[0]);
      var t := Next(n, s, steps[0]);
      StopsWithinARound(n, t, steps[1..]);
    }
  }

  /** After that it neither sends nor receives: its thread takes no step any more. */
  lemma {:induction false} ClosedIsFinal(n: nat, s: State, steps: seq<Step>)
    requires n > 0 && s.pc.Closed?
    ensures ClientTurns(n, s, steps) == 0
    ensures var t := Exec(n, s, steps);
            t.pc.Closed? && t.accepted == s.accepted && t.consumed == s.consumed && t.frame == s.frame
    decreases |steps|
  {
    if steps == [] {
    } else {
      ClosedIsFinal(n, Next(n, s, steps[0]), steps[1..]);
    }
  }
}
