/** What both benchmarks are meant to be: one FIFO of whole messages. */
module MessageFifo {

  datatype Fifo = Fifo(queue: seq<string>, delivered: seq<string>)

  const EMPTY := Fifo([], [])

  datatype Action = Put(msg: string) | Deliver

  function Act(f: Fifo, a: Action): Fifo {
    match a
    case Put(msg) => f.(queue := f.queue + [msg])
    case Deliver => if f.queue == [] then f else Fifo(f.queue[1..], f.delivered + [f.queue[0]])
  }

  function Perform(f: Fifo, actions: seq<Action>): Fifo {
    if actions == [] then f else Act(Perform(f, actions[..|actions| - 1]), actions[|actions| - 1])
  }

  /** The messages put by a sequence of actions, in order. */
  function Puts(actions: seq<Action>): seq<string> {
    if actions == [] then []
    else
      var last := actions[|actions| - 1];
      Puts(actions[..|actions| - 1]) + if last.Put? then [last.msg] else []
  }

  /** A FIFO neither loses, nor reorders, nor invents. */
  lemma {:induction false} FifoLaw(actions: seq<Action>)
    ensures Perform(EMPTY, actions).delivered + Perform(EMPTY, actions).queue == Puts(actions)
  {
    if actions == [] {
    } else {
      FifoLaw(actions[..|actions| - 1]);
    }
  }

  lemma {:induction false} PerformAppend(f: Fifo, a: seq<Action>, b: seq<Action>)
    ensures Perform(f, a + b) == Perform(Perform(f, a), b)
  {
    if b == [] {
      assert a + b == a;
    } else {
      var init := b[..|b| - 1];
      assert (a + b)[..|a + b| - 1] == a + init;
      PerformAppend(f, a, init);
    }
  }

  function Deliveries(k: nat): seq<Action> { seq(k, _ => Deliver) }

  lemma {:induction false} DeliverMany(f: Fifo, k: nat)
    requires k <= |f.queue|
    ensures Perform(f, Deliveries(k)) == Fifo(f.queue[k..], f.delivered + f.queue[..k])
  {
    if k == 0 {
    } else {
      assert Deliveries(k)[..k - 1] == Deliveries(k - 1);
      DeliverMany(f, k - 1);
      assert f.queue[..k] == f.queue[..k - 1] + [f.queue[k - 1]];
    }
  }
}
