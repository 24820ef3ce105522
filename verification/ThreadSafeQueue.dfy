/** The mutex-protected queue.  Each method is one critical section. */
module ThreadSafeQueue {

  class Queue<T> {
    var queue: seq<T>
    ghost var pushed: seq<T>
    ghost var popped: seq<T>

    /** First in, first out: what was pushed is what was popped, then what is still inside. */
    ghost predicate Valid()
      reads this
    {
      pushed == popped + queue
    }

    constructor ()
      ensures Valid()
      ensures queue == [] && pushed == [] && popped == []
    {
      queue, pushed, popped := [], [], [];
    }

    method Push(value: T)
      requires Valid()
      modifies this
      ensures Valid()
      ensures queue == old(queue) + [value]
      ensures pushed == old(pushed) + [value] && popped == old(popped)
    {
      queue := queue + [value];
      pushed := pushed + [value];
    }

    /** The part of `pop` after the wait: the wait ends when the queue is not empty. */
    method Pop() returns (value: T, ok: bool)
      requires Valid()
      requires queue != []
      modifies this
      ensures Valid()
      ensures ok && [value] + queue == old(queue)
      ensures popped == old(popped) + [value] && pushed == old(pushed)
      ensures |old(popped)| < |pushed| && value == pushed[|old(popped)|]
    {
      value := queue[0];
      queue := queue[1..];
      popped := popped + [value];
      ok := true;
    }

    method Empty() returns (empty: bool)
      ensures empty <==> queue == []
    {
      empty := queue == [];
    }
  }
}
