/** threadsafe_queue<T> is linearisable: under every interleaving the calls that
    come back, in the order of their unlocking, are calls of the sequential queue,
    and every thread gets the answers to its own calls. */
module QueueLinearisation {
  import opened Seqs
  import opened SequentialQueue
  import opened QueueMonitor

  /** What a step hands back to a caller. */
  function ReturnsNow<T>(s: State<T>, step: Step<T>): seq<Return<T>> {
    if Enabled(s, step) && step.Act? && s.mutex.phase.Exit?
    then [Return(s.mutex.owner, s.mutex.phase.op, s.mutex.phase.answer)] else []
  }

  function Returns<T>(s: State<T>, steps: seq<Step<T>>): seq<Return<T>>
    decreases |steps|
  {
    if steps == [] then [] else ReturnsNow(s, steps[0]) + Returns(Next(s, steps[0]), steps[1..])
  }

  /** The operation that the owner of the mutex has performed but not yet left. */
  function Leaving<T>(s: State<T>): seq<Return<T>> {
    match s.mutex
    case Held(t, Notify(value)) => [Return(t, Push(value), Done)]
    case Held(t, Exit(op, answer)) => [Return(t, op, answer)]
    case _ => []
  }

  /** The done so far, and the one on its way, are those of the sequential
      queue, which then holds what the queue holds. */
  ghost predicate Serial<T>(done: seq<Return<T>>, s: State<T>) {
    Correct(done + Leaving(s)) && Contents(done + Leaving(s)) == s.data
  }

  /** An operation on the locked data is one operation of the sequential queue, or
      it goes to sleep and has done nothing. */
  lemma OperationServes<T>(s: State<T>, notified: Tid)
    requires Enabled(s, Act(notified)) && (s.mutex.phase.Enter? || s.mutex.phase.Retest?)
    ensures Leaving(s) == []
    ensures var u := Next(s, Act(notified));
            if Leaving(u) == [] then u.data == s.data else
            var r := Leaving(u)[0];
            && Leaving(u) == [r] && u.data == After(s.data, r.op) && r.answer == Reply(s.data, r.op)
            && (r.op.WaitAndPop? ==> r.answer.Value?)
  {
  }

  lemma OperationIsSerial<T>(done: seq<Return<T>>, s: State<T>, notified: Tid)
    requires Serial(done, s) && Enabled(s, Act(notified)) && (s.mutex.phase.Enter? || s.mutex.phase.Retest?)
    ensures Serial(done, Next(s, Act(notified)))
  {
    var leaving := Leaving(Next(s, Act(notified)));
    OperationServes(s, notified);
    assert done + [] == done;
    if leaving != [] {
      ContentsSnoc(done, leaving[0]);
      CorrectSnoc(done, leaving[0]);
    }
  }

  /** All other steps touch neither the data nor what has been performed. */
  lemma OthersLeave<T>(s: State<T>, step: Step<T>)
    requires Enabled(s, step) && step.Act? ==> !s.mutex.phase.Enter? && !s.mutex.phase.Retest?
    ensures ReturnsNow(s, step) + Leaving(Next(s, step)) == Leaving(s)
    ensures Next(s, step).data == s.data
  {
  }

  lemma SerialKept<T>(done: seq<Return<T>>, s: State<T>, step: Step<T>)
    requires Serial(done, s)
    ensures Serial(done + ReturnsNow(s, step), Next(s, step))
  {
    if Enabled(s, step) && step.Act? && (s.mutex.phase.Enter? || s.mutex.phase.Retest?) {
      assert ReturnsNow(s, step) == [] && done + [] == done;
      OperationIsSerial(done, s, step.notified);
    } else {
      OthersLeave(s, step);
      AppendTwice(done, ReturnsNow(s, step), Leaving(Next(s, step)));
    }
  }

  lemma {:induction false} SerialAlways<T>(done: seq<Return<T>>, s: State<T>, steps: seq<Step<T>>)
    requires Serial(done, s)
    ensures Serial(done + Returns(s, steps), Exec(s, steps))
    decreases |steps|
  {
    if steps == [] {
      assert done + [] == done;
    } else {
      SerialKept(done, s, steps[0]);
      var now, rest := ReturnsNow(s, steps[0]), Returns(Next(s, steps[0]), steps[1..]);
      SerialAlways(done + now, Next(s, steps[0]), steps[1..]);
      AppendTwice(done, now, rest);
    }
  }

  /** Linearisability. Whatever the schedule, every completed push appends its own
      value, every pop hands out and removes the oldest one, every grab_all hands
      out everything and leaves nothing, every size is the true one. */
  lemma Linearisable<T>(steps: seq<Step<T>>)
    ensures var s := Exec(Init(), steps);
            var done := Returns(Init(), steps) + Leaving(s);
            Correct(done) && Contents(done) == s.data
  {
    SerialAlways([], Init<T>(), steps);
    assert [] + Returns(Init<T>(), steps) == Returns(Init<T>(), steps);
  }

  // ----- Every thread gets the answers to its own calls -----

  /** The calls that thread t makes in a run. */
  function CallsNow<T>(s: State<T>, step: Step<T>, t: Tid): seq<Op<T>> {
    if Enabled(s, step) && step.Call? && step.t == t then [step.op] else []
  }

  function Calls<T>(s: State<T>, steps: seq<Step<T>>, t: Tid): seq<Op<T>>
    decreases |steps|
  {
    if steps == [] then [] else CallsNow(s, steps[0], t) + Calls(Next(s, steps[0]), steps[1..], t)
  }

  /** The calls of thread t that have come back. */
  function Answered<T>(done: seq<Return<T>>, t: Tid): seq<Op<T>> {
    if done == [] then []
    else (if done[0].t == t then [done[0].op] else []) + Answered(done[1..], t)
  }

  /** The call in which thread t is, if any. */
  function InCall<T>(s: State<T>, t: Tid): seq<Op<T>> {
    if t in s.entering then [s.entering[t]]
    else if t in s.blocked || t in s.woken then [WaitAndPop]
    else if s.mutex.Held? && s.mutex.owner == t then
      match s.mutex.phase
      case Enter(op) => [op]
      case Notify(value) => [Push(value)]
      case Retest => [WaitAndPop]
      case Exit(op, _) => [op]
    else []
  }

  lemma {:induction false} AnsweredAppend<T>(a: seq<Return<T>>, b: seq<Return<T>>, t: Tid)
    ensures Answered(a + b, t) == Answered(a, t) + Answered(b, t)
  {
    if a == [] {
      assert a + b == b;
    } else {
      assert (a + b)[1..] == a[1..] + b;
      AnsweredAppend(a[1..], b, t);
    }
  }

  lemma CallKept<T>(s: State<T>, step: Step<T>, t: Tid)
    requires Disjoint(s)
    ensures InCall(s, t) + CallsNow(s, step, t) == Answered(ReturnsNow(s, step), t) + InCall(Next(s, step), t)
  {
    if Enabled(s, step) {
      match step {
        case Call(_, _) =>
        case Acquire(_) =>
        case SpuriousWakeup(_) =>
        case Act(notified) => ActKeepsCall(s, notified, t);
      }
    }
  }

  lemma ActKeepsCall<T>(s: State<T>, notified: Tid, t: Tid)
    requires Disjoint(s) && Enabled(s, Act(notified))
    ensures InCall(s, t) == Answered(ReturnsNow(s, Act(notified)), t) + InCall(Next(s, Act(notified)), t)
  {
    match s.mutex.phase {
      case Enter(op) =>
      case Notify(_) =>
      case Retest =>
      case Exit(op, _) => assert ReturnsNow(s, Act(notified))[1..] == [];
    }
  }

  lemma {:induction false} CallsKept<T>(s: State<T>, steps: seq<Step<T>>, t: Tid)
    requires Disjoint(s)
    ensures InCall(s, t) + Calls(s, steps, t) == Answered(Returns(s, steps), t) + InCall(Exec(s, steps), t)
    decreases |steps|
  {
    if steps == [] {
      assert InCall(s, t) + [] == InCall(s, t) == [] + InCall(s, t);
    } else {
      var u, more := Next(s, steps[0]), steps[1..];
      CallKept(s, steps[0], t);
      DisjointKept(s, steps[0]);
      CallsKept(u, more, t);
      AnsweredAppend(ReturnsNow(s, steps[0]), Returns(u, more), t);
      Chain(InCall(s, t), CallsNow(s, steps[0], t), Calls(u, more, t), Answered(ReturnsNow(s, steps[0]), t),
            InCall(u, t), Answered(Returns(u, more), t), InCall(Exec(u, more), t));
    }
  }

  lemma Chain<T>(a: seq<T>, b: seq<T>, c: seq<T>, d: seq<T>, e: seq<T>, f: seq<T>, g: seq<T>)
    requires a + b == d + e && e + c == f + g
    ensures a + (b + c) == (d + f) + g
  {
    assert a + (b + c) == (a + b) + c == d + (e + c);
  }

  /** In every run, the calls of a thread that have come back are the calls it made,
      in order, except the one in which it still is: none is answered twice, for
      somebody else, or with another operation. */
  lemma OwnCalls<T>(steps: seq<Step<T>>, t: Tid)
    ensures Calls(Init(), steps, t) == Answered(Returns(Init(), steps), t) + InCall(Exec(Init(), steps), t)
  {
    CallsKept(Init<T>(), steps, t);
    assert [] + Calls(Init<T>(), steps, t) == Calls(Init<T>(), steps, t);
  }
}
