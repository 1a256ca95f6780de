/** threadsafe_queue<T>: the critical sections, each run with the mutex held.
    How they interleave with blocking and waking is the subject of QueueMonitor. */
module ThreadsafeQueue {

  import opened SequentialQueue
  import opened Wrappers

  class Queue<T(==)> {
    var data: seq<T>
    ghost var pushed: seq<T>   // every value pushed so far
    ghost var removed: seq<T>  // every value popped or grabbed so far

    /** First in, first out, nothing lost. */
    ghost predicate Valid() reads this { removed + data == pushed }

    constructor ()
      ensures Valid() && data == [] && pushed == [] && removed == []
    {
      data, pushed, removed := [], [], [];
    }

    constructor Copy(other: Queue<T>)
      ensures Valid() && data == other.data && removed == []
    {
      data, pushed, removed := other.data, other.data, [];
    }

    method Size() returns (n: nat)
      ensures n == |data|
    {
      n := |data|;
    }

    method IsEmpty() returns (b: bool)
      ensures b <==> data == []
    {
      b := |data| == 0;
    }

    method Push(x: T)
      requires Valid()
      modifies this
      ensures Valid() && data == old(data) + [x] && pushed == old(pushed) + [x] && removed == old(removed)
      ensures data == After(old(data), Op.Push(x))
    {
      data := data + [x];
      pushed := pushed + [x];
    }

    /** try_pop, and the section of wait_and_pop after a wake-up: the oldest
        value, or nothing when there is none. */
    method TryPop() returns (r: Option<T>)
      requires Valid()
      modifies this
      ensures Valid() && pushed == old(pushed)
      ensures old(data) == [] ==> r == None && data == [] && removed == old(removed)
      ensures old(data) != [] ==> r.Some? && old(data) == [r.value] + data && removed == old(removed) + [r.value]
      ensures data == After(old(data), Op.TryPop)
      ensures Reply(old(data), Op.TryPop) == if r.Some? then Value(r.value) else Nothing
    {
      if |data| == 0 {
        return None;
      }
      r := Some(data[0]);
      data := data[1..];
      removed := removed + [r.value];
    }

    /** grab_all: the whole queue at once. */
    method GrabAll() returns (r: seq<T>)
      requires Valid()
      modifies this
      ensures Valid() && pushed == old(pushed)
      ensures r == old(data) && data == [] && removed == old(removed) + r
      ensures data == After(old(data), Op.GrabAll) && Reply(old(data), Op.GrabAll) == All(r)
    {
      r := [];
      r, data := data, r;
      removed := removed + r;
    }
  }
}
