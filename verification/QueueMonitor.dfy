/**
 * threadsafe_queue<T> under concurrency: any number of threads call push,
 * wait_and_pop, try_pop, grab_all, size and empty; acquiring the mutex,
 * blocking on the condition variable, notification and spurious wake-ups are
 * separate steps. A step that is not enabled leaves the state as it is.
 */
module QueueMonitor {
  import opened SequentialQueue

  type Tid = nat

  /** What the owner of the mutex does next. */
  datatype Phase<T> =
    | Enter(op: Op<T>)                    // just acquired it
    | Notify(value: T)                    // has pushed, is about to call notify_one
    | Retest                              // woken in wait, about to test the predicate again
    | Exit(op: Op<T>, answer: Answer<T>)  // is about to unlock and to return the answer

  datatype Mutex<T> = Free | Held(owner: Tid, phase: Phase<T>)

  /** One removal: who took it, and the values, oldest first. */
  datatype Removal<T> = Removal(taker: Tid, values: seq<T>)

  datatype State<T> = State(
    data: seq<T>,
    mutex: Mutex<T>,
    entering: map<Tid, Op<T>>,  // called, waiting for the mutex
    blocked: set<Tid>,          // asleep on the condition variable
    woken: set<Tid>,            // woken, waiting for the mutex again
    pushed: seq<T>,             // history, in lock order
    removals: seq<Removal<T>>)

  function Init<T>(): State<T> { State([], Free, map[], {}, {}, [], []) }

  datatype Step<T> =
    | Call(t: Tid, op: Op<T>)
    | Acquire(t: Tid)
    | Act(notified: Tid)  // the owner's next action; `notified` matters only for notify_one
    | SpuriousWakeup(t: Tid)

  predicate Busy<T>(s: State<T>, t: Tid) {
    t in s.entering || t in s.blocked || t in s.woken || (s.mutex.Held? && s.mutex.owner == t)
  }

  predicate Enabled<T>(s: State<T>, step: Step<T>) {
    match step
    case Call(t, _) => !Busy(s, t)
    case Acquire(t) => s.mutex.Free? && (t in s.entering || t in s.woken)
    case Act(notified) => s.mutex.Held? && (s.mutex.phase.Notify? && s.blocked != {} ==> notified in s.blocked)
    case SpuriousWakeup(t) => t in s.blocked
  }

  /** The body of an operation, up to unlocking, notifying or blocking. */
  function Body<T>(s: State<T>, t: Tid, op: Op<T>): State<T> {
    match op
    case Push(value) => s.(data := s.data + [value], pushed := s.pushed + [value], mutex := Held(t, Notify(value)))
    case WaitAndPop => PopOrBlock(s, t)
    case TryPop =>
      if s.data == [] then s.(mutex := Held(t, Exit(TryPop, Nothing))) else Pop(s, t, TryPop)
    case GrabAll =>
      s.(data := [], removals := s.removals + [Removal(t, s.data)], mutex := Held(t, Exit(GrabAll, All(s.data))))
    case Read => s.(mutex := Held(t, Exit(Read, Size(|s.data|))))
  }

  function Pop<T>(s: State<T>, t: Tid, op: Op<T>): State<T>
    requires s.data != []
  {
    s.(data := s.data[1..], removals := s.removals + [Removal(t, [s.data[0]])],
       mutex := Held(t, Exit(op, Value(s.data[0]))))
  }

  /** wait with the predicate "not empty": pop, or release the mutex and sleep. */
  function PopOrBlock<T>(s: State<T>, t: Tid): State<T> {
    if s.data == [] then s.(mutex := Free, blocked := s.blocked + {t}) else Pop(s, t, WaitAndPop)
  }

  function Next<T>(s: State<T>, step: Step<T>): State<T> {
    if !Enabled(s, step) then s
    else match step
      case Call(t, op) => s.(entering := s.entering[t := op])
      case Acquire(t) =>
        if t in s.entering then s.(mutex := Held(t, Enter(s.entering[t])), entering := s.entering - {t})
        else s.(mutex := Held(t, Retest), woken := s.woken - {t})
      case Act(notified) =>
        var t := s.mutex.owner;
        (match s.mutex.phase
         case Enter(op) => Body(s, t, op)
         case Notify(value) =>
           var exit := Exit(Push(value), Done);
           if s.blocked == {} then s.(mutex := Held(t, exit))
           else s.(mutex := Held(t, exit), blocked := s.blocked - {notified}, woken := s.woken + {notified})
         case Retest => PopOrBlock(s, t)
         case Exit(_, _) => s.(mutex := Free))
      case SpuriousWakeup(t) => s.(blocked := s.blocked - {t}, woken := s.woken + {t})
  }

  function Exec<T>(s: State<T>, steps: seq<Step<T>>): State<T>
    decreases |steps|
  {
    if steps == [] then s else Exec(Next(s, steps[0]), steps[1..])
  }

  /** The values removed so far, in lock order. */
  function Removed<T>(removals: seq<Removal<T>>): seq<T> {
    if removals == [] then []
    else Removed(removals[..|removals| - 1]) + removals[|removals| - 1].values
  }

  lemma RemovedSnoc<T>(removals: seq<Removal<T>>, r: Removal<T>)
    ensures Removed(removals + [r]) == Removed(removals) + r.values
  {
    assert (removals + [r])[..|removals|] == removals;
  }

  /** 1 while the owner still owes the waiters a wake-up or a pop. */
  function Credit<T>(s: State<T>): nat {
    if s.mutex.Held? && (s.mutex.phase.Notify? || s.mutex.phase.Retest?) then 1 else 0
  }

  /** A thread is in at most one place. */
  predicate Disjoint<T>(s: State<T>) {
    && s.blocked !! s.woken
    && s.entering.Keys !! s.blocked + s.woken
    && (s.mutex.Held? ==> s.mutex.owner !in s.blocked + s.woken + s.entering.Keys)
  }

  /** notify_one wakes exactly one of the sleepers, if there is any. */
  lemma NotifyWakesOne<T>(s: State<T>, notified: Tid)
    requires Disjoint(s) && Enabled(s, Act(notified)) && s.mutex.phase.Notify?
    ensures var u := Next(s, Act(notified));
            && u.data == s.data && u.entering == s.entering
            && u.blocked + u.woken == s.blocked + s.woken
            && |u.woken| == |s.woken| + if s.blocked == {} then 0 else 1
  {
    var u := Next(s, Act(notified));
    if s.blocked != {} {
      assert u.woken == s.woken + {notified} && notified !in s.woken;
      assert u.blocked + u.woken == s.blocked + s.woken;
    }
  }

  /** No lost wake-up: while a thread sleeps un-notified, every queued value is
      matched by a woken thread on its way or by what the owner still owes. */
  predicate NoneLost<T>(s: State<T>) {
    s.blocked != {} ==> |s.data| <= |s.woken| + Credit(s)
  }

  ghost predicate Linear<T>(s: State<T>) {
    Removed(s.removals) + s.data == s.pushed
  }

  lemma DisjointKept<T>(s: State<T>, step: Step<T>)
    requires Disjoint(s)
    ensures Disjoint(Next(s, step))
  {
  }

  lemma BodyKeepsNoneLost<T>(s: State<T>, t: Tid, op: Op<T>)
    requires s.blocked != {} ==> |s.data| <= |s.woken|
    ensures NoneLost(Body(s, t, op))
  {
    match op {
      case Push(value) =>
        assert Body(s, t, op).woken == s.woken && |Body(s, t, op).data| == |s.data| + 1;
      case _ =>
    }
  }

  lemma ActKeepsNoneLost<T>(s: State<T>, notified: Tid)
    requires Disjoint(s) && NoneLost(s) && Enabled(s, Act(notified))
    ensures NoneLost(Next(s, Act(notified)))
  {
    match s.mutex.phase {
      case Enter(op) => BodyKeepsNoneLost(s, s.mutex.owner, op);
      case Notify(_) =>
        if s.blocked != {} { assert |s.woken + {notified}| == |s.woken| + 1; }
      case Retest =>
      case Exit(_, _) =>
    }
  }

  lemma NoneLostKept<T>(s: State<T>, step: Step<T>)
    requires Disjoint(s) && NoneLost(s)
    ensures NoneLost(Next(s, step))
  {
    if Enabled(s, step) {
      match step {
        case Call(_, _) =>
        case SpuriousWakeup(t) => assert |s.woken + {t}| == |s.woken| + 1;
        case Acquire(t) => if t !in s.entering { assert |s.woken - {t}| == |s.woken| - 1; }
        case Act(notified) => ActKeepsNoneLost(s, notified);
      }
    }
  }

  lemma PopIsLinear<T>(s: State<T>, t: Tid, op: Op<T>)
    requires Linear(s) && s.data != []
    ensures Linear(Pop(s, t, op))
  {
    RemovedSnoc(s.removals, Removal(t, [s.data[0]]));
    assert [s.data[0]] + s.data[1..] == s.data;
  }

  lemma LinearKept<T>(s: State<T>, step: Step<T>)
    requires Linear(s)
    ensures Linear(Next(s, step))
  {
    if Enabled(s, step) && step.Act? {
      var t := s.mutex.owner;
      if s.data != [] {
        PopIsLinear(s, t, TryPop);
        PopIsLinear(s, t, WaitAndPop);
      }
      match s.mutex.phase {
        case Enter(Push(value)) => assert Removed(s.removals) + (s.data + [value]) == s.pushed + [value];
        case Enter(GrabAll) => RemovedSnoc(s.removals, Removal(t, s.data));
        case _ =>
      }
    }
  }

  lemma {:induction false} Always<T>(s: State<T>, steps: seq<Step<T>>)
    requires Disjoint(s) && NoneLost(s) && Linear(s)
    ensures Disjoint(Exec(s, steps)) && NoneLost(Exec(s, steps)) && Linear(Exec(s, steps))
    decreases |steps|
  {
    if steps == [] {
    } else {
      DisjointKept(s, steps[0]);
      NoneLostKept(s, steps[0]);
      LinearKept(s, steps[0]);
      Always(Next(s, steps[0]), steps[1..]);
    }
  }

  /** Linearisation: in lock order, what was removed and what is still queued
      is what was pushed, under every interleaving. */
  lemma RemovalsAreFifo<T>(steps: seq<Step<T>>)
    ensures var s := Exec(Init(), steps);
            Removed(s.removals) + s.data == s.pushed
  {
    Always(Init<T>(), steps);
  }

  /** Where the k-th removal starts in the order of pushes. */
  function Start<T>(removals: seq<Removal<T>>, k: nat): nat
    requires k <= |removals|
  {
    |Removed(removals[..k])|
  }

  lemma {:induction false} RemovalIsSlice<T>(removals: seq<Removal<T>>, k: nat)
    requires k < |removals|
    ensures Start(removals, k) + |removals[k].values| == Start(removals, k + 1) <= |Removed(removals)|
    ensures Removed(removals)[Start(removals, k)..Start(removals, k + 1)] == removals[k].values
  {
    var init, last := removals[..|removals| - 1], removals[|removals| - 1];
    assert removals[..k + 1][..k] == removals[..k];
    if k + 1 == |removals| {
      assert removals[..k + 1] == removals;
    } else {
      assert init[..k] == removals[..k] && init[..k + 1] == removals[..k + 1];
      RemovalIsSlice(init, k);
    }
  }

  lemma {:induction false} StartsGrow<T>(removals: seq<Removal<T>>, i: nat, j: nat)
    requires i <= j <= |removals|
    ensures Start(removals, i) <= Start(removals, j)
  {
    if i < j {
      StartsGrow(removals, i, j - 1);
      RemovalIsSlice(removals, j - 1);
    }
  }

  /** No value is handed out twice: the k-th removal is one stretch of the
      pushed values, and different removals are different stretches. */
  lemma EachValueOnce<T>(steps: seq<Step<T>>, i: nat, j: nat)
    requires i < j < |Exec(Init(), steps).removals|
    ensures var s := Exec(Init(), steps);
            var a, b := Start(s.removals, i), Start(s.removals, j);
            && a + |s.removals[i].values| <= b
            && b + |s.removals[j].values| <= |s.pushed|
            && s.pushed[a..a + |s.removals[i].values|] == s.removals[i].values
            && s.pushed[b..b + |s.removals[j].values|] == s.removals[j].values
  {
    var s := Exec(Init(), steps);
    RemovalsAreFifo(steps);
    RemovalIsSlice(s.removals, i);
    RemovalIsSlice(s.removals, j);
    StartsGrow(s.removals, i + 1, j);
    assert Removed(s.removals) <= s.pushed;
  }

  /** While somebody sleeps un-notified, the queued values are at most as many
      as the woken threads that are on their way, plus the one the owner owes. */
  lemma NoLostWakeup<T>(steps: seq<Step<T>>)
    ensures var s := Exec(Init(), steps);
            s.blocked != {} ==> |s.data| <= |s.woken| + Credit(s)
  {
    Always(Init<T>(), steps);
  }

  /** So whenever the mutex is free, a value is queued and a thread sleeps, some
      woken thread exists that, on getting the mutex, takes the oldest value. */
  lemma WaiterCanPop<T>(steps: seq<Step<T>>) returns (t: Tid)
    requires var s := Exec(Init(), steps);
             s.mutex.Free? && s.data != [] && s.blocked != {}
    ensures var s := Exec(Init(), steps);
            && t in s.woken
            && Next(Next(s, Acquire(t)), Act(t)).removals == s.removals + [Removal(t, [s.data[0]])]
  {
    Always(Init<T>(), steps);
    var s := Exec(Init(), steps);
    assert s.woken != {};
    t :| t in s.woken;
  }

  /** The owner's actions still to come before it unlocks or blocks. */
  function ActionsLeft<T>(s: State<T>): nat {
    match s.mutex
    case Free => 0
    case Held(_, Enter(_)) => 3
    case Held(_, Notify(_)) => 2
    case Held(_, Retest) => 2
    case Held(_, Exit(_, _)) => 1
  }

  /** A thread that notify_one may pick. */
  ghost function Candidate<T>(s: State<T>): Tid {
    if s.blocked == {} then 0 else var t :| t in s.blocked; t
  }

  /** The owner of the mutex never waits for anybody. */
  lemma OwnerAdvances<T>(s: State<T>)
    requires s.mutex.Held?
    ensures ActionsLeft(Next(s, Act(Candidate(s)))) < ActionsLeft(s)
  {
  }

  /** With a value queued and a waiter, the owner either takes a value or leaves
      both a value and a waiter. */
  lemma OwnerPopsOrLeaves<T>(s: State<T>)
    requires Disjoint(s) && s.mutex.Held? && s.data != [] && s.blocked + s.woken != {}
    ensures var u := Next(s, Act(Candidate(s)));
            || (|u.removals| == |s.removals| + 1 && u.removals[|s.removals|].values != [])
            || (u.removals == s.removals && u.data != [] && u.blocked + u.woken != {})
  {
    var c := Candidate(s);
    assert Enabled(s, Act(c));
    match s.mutex.phase {
      case Enter(op) =>
      case Notify(_) => if s.blocked != {} { assert c in s.woken + {c}; }
      case Retest =>
      case Exit(_, _) =>
    }
  }

  lemma WokenPops<T>(s: State<T>, t: Tid)
    requires Disjoint(s) && s.mutex.Free? && s.data != [] && t in s.woken
    ensures Exec(s, [Acquire(t), Act(t)]).removals == s.removals + [Removal(t, [s.data[0]])]
  {
    var u := Next(s, Acquire(t));
    assert u == s.(mutex := Held(t, Retest), woken := s.woken - {t});
    var steps: seq<Step<T>> := [Acquire(t), Act(t)];
    assert steps[1..] == [Act(t)];
    assert Exec(u, [Act(t)]) == Exec(Next(u, Act(t)), []);
  }

  /** No deadlock: as long as a value is queued and some thread waits for one,
      a few acquisitions and actions, with no new call, hand a value over. */
  lemma {:induction false} SomeonePops<T>(s: State<T>) returns (steps: seq<Step<T>>)
    requires Disjoint(s) && NoneLost(s) && s.data != [] && s.blocked + s.woken != {}
    ensures |steps| <= 5 && forall step <- steps :: step.Acquire? || step.Act?
    ensures |s.removals| < |Exec(s, steps).removals| && Exec(s, steps).removals[|s.removals|].values != []
    ensures |steps| <= 2 + ActionsLeft(s)
    decreases ActionsLeft(s)
  {
    if s.mutex.Free? {
      assert s.woken != {};
      var t :| t in s.woken;
      WokenPops(s, t);
      steps := [Acquire(t), Act(t)];
    } else {
      var act := Act(Candidate(s));
      var u := Next(s, act);
      OwnerAdvances(s);
      OwnerPopsOrLeaves(s);
      if u.removals != s.removals {
        steps := [act];
        assert Exec(s, steps) == Exec(u, []);
      } else {
        DisjointKept(s, act);
        NoneLostKept(s, act);
        var rest := SomeonePops(u);
        steps := [act] + rest;
        assert steps[1..] == rest;
      }
    }
  }

  /** In every reachable state. */
  lemma ReachablePops<T>(before: seq<Step<T>>) returns (steps: seq<Step<T>>)
    requires var s := Exec(Init(), before); s.data != [] && s.blocked != {}
    ensures |steps| <= 5 && forall step <- steps :: step.Acquire? || step.Act?
    ensures var s := Exec(Init(), before);
            |s.removals| < |Exec(s, steps).removals| && Exec(s, steps).removals[|s.removals|].values != []
  {
    Always(Init<T>(), before);
    steps := SomeonePops(Exec(Init(), before));
  }
}
