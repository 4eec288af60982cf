/** The bounded queue that hands work to threads. Every operation is one critical section. */
module Queues {
  import opened Wrappers

  /** What a producer's push does to a queue: refuse at capacity, append otherwise. */
  function Pushed<T>(q: seq<T>, cap: nat, x: T): seq<T> {
    if |q| < cap then q + [x] else q
  }

  datatype PopResult<T> = Item(item: T) | Timeout | Exit

  /** What a consumer gets when its wait ends: a stopped queue hands out nothing more. */
  function Taken<T>(q: seq<T>, exit: bool): PopResult<T> {
    if exit then Exit else if q == [] then Timeout else Item(q[0])
  }

  class SafeQueue<T(0)> {
    const cap: nat
    var queue: seq<T>
    var exit: bool

    constructor (capacity: nat)
      ensures cap == capacity && queue == [] && !exit
    {
      cap := capacity;
      queue := [];
      exit := false;
    }

    /** Stopping does not close the queue to producers. */
    method Push(item: T) returns (ok: bool)
      modifies this`queue
      ensures ok <==> old(|queue|) < cap
      ensures ok ==> queue == old(queue) + [item]
      ensures !ok ==> queue == old(queue)
      ensures queue == Pushed(old(queue), cap, item)
    {
      ok := false;
      if |queue| < cap {
        queue := queue + [item];
        ok := true;
      }
    }

    /** The state is the one found when the wait ends, whether by an item, a stop or the clock. */
    method PopTimeout() returns (r: PopResult<T>)
      modifies this`queue
      ensures exit ==> r == Exit
      ensures !exit && old(queue) == [] ==> r == Timeout
      ensures !exit && old(queue) != [] ==> r == Item(old(queue)[0])
      ensures r == Taken(old(queue), exit)
      ensures queue == if r.Item? then old(queue)[1..] else old(queue)
    {
      if exit {
        return Exit;
      }
      if |queue| == 0 {
        return Timeout;
      }
      r := Item(queue[0]);
      queue := queue[1..];
    }

    /** Back to the head of the line, past the capacity if need be. */
    method Requeue(item: T)
      modifies this`queue
      ensures queue == [item] + old(queue)
    {
      queue := [item] + queue;
    }

    method Stop()
      modifies this`exit
      ensures exit
    {
      exit := true;
    }

    method RawPop() returns (r: Option<T>)
      modifies this`queue
      ensures old(queue) == [] ==> r.None? && queue == []
      ensures old(queue) != [] ==> r == Some(old(queue)[0]) && queue == old(queue)[1..]
    {
      if |queue| == 0 {
        return None;
      }
      r := Some(queue[0]);
      queue := queue[1..];
    }

    /** The drain loop at shutdown, which gets everything that was left, in order. */
    method DrainAll() returns (items: seq<T>)
      modifies this`queue
      ensures items == old(queue) && queue == []
    {
      items := [];
      var r := RawPop();
      while r.Some?
        invariant items + (if r.Some? then [r.value] else []) + queue == old(queue)
        invariant r.None? ==> queue == []
        decreases |queue| + (if r.Some? then 1 else 0)
      {
        items := items + [r.value];
        r := RawPop();
      }
    }
  }
}
