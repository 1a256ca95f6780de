/** The queue without threads: what each operation of threadsafe_queue<T> answers
    and leaves. Both the class and the monitor are measured against it. */
module SequentialQueue {

  datatype Op<T> = Push(value: T) | WaitAndPop | TryPop | GrabAll | Read

  /** What a call hands to its caller; `Size` is for size() and empty(). */
  datatype Answer<T> = Done | Value(value: T) | Nothing | All(values: seq<T>) | Size(n: nat)

  function After<T>(contents: seq<T>, op: Op<T>): seq<T> {
    match op
    case Push(value) => contents + [value]
    case WaitAndPop => if contents == [] then [] else contents[1..]
    case TryPop => if contents == [] then [] else contents[1..]
    case GrabAll => []
    case Read => contents
  }

  /** wait_and_pop has no answer on an empty queue. */
  function Reply<T>(contents: seq<T>, op: Op<T>): Answer<T> {
    match op
    case Push(_) => Done
    case WaitAndPop => if contents == [] then Nothing else Value(contents[0])
    case TryPop => if contents == [] then Nothing else Value(contents[0])
    case GrabAll => All(contents)
    case Read => Size(|contents|)
  }

  /** A call that has come back to its thread. */
  datatype Return<T> = Return(t: nat, op: Op<T>, answer: Answer<T>)

  /** The contents after a series of operations on a queue that was empty. */
  function Contents<T>(done: seq<Return<T>>): seq<T> {
    if done == [] then [] else After(Contents(done[..|done| - 1]), done[|done| - 1].op)
  }

  /** Every answer is that of the queue, and nobody is sent away by wait_and_pop. */
  ghost predicate Correct<T>(done: seq<Return<T>>) {
    forall k :: 0 <= k < |done| ==>
      && done[k].answer == Reply(Contents(done[..k]), done[k].op)
      && (done[k].op.WaitAndPop? ==> done[k].answer.Value?)
  }

  lemma ContentsSnoc<T>(done: seq<Return<T>>, r: Return<T>)
    ensures Contents(done + [r]) == After(Contents(done), r.op)
  {
    assert (done + [r])[..|done|] == done;
  }

  lemma CorrectSnoc<T>(done: seq<Return<T>>, r: Return<T>)
    requires Correct(done) && r.answer == Reply(Contents(done), r.op)
    requires r.op.WaitAndPop? ==> r.answer.Value?
    ensures Correct(done + [r])
  {
    var all := done + [r];
    forall k | 0 <= k < |all|
      ensures all[k].answer == Reply(Contents(all[..k]), all[k].op) && (all[k].op.WaitAndPop? ==> all[k].answer.Value?)
    {
      assert k < |done| ==> all[..k] == done[..k];
      assert all[..|done|] == done;
    }
  }
}
