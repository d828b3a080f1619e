/** The queue between a producer and a consumer: a list and a semaphore that counts it. */
module BlockingQueueModel {
  import opened Options

  /** What `Put` does with the list: it may drop from the front, or abort the process. */
  datatype Outcome<T> = Stored(queue: seq<T>) | Overflowed(queue: seq<T>, dropped: seq<T>) | Aborted

  function PutInto<T>(queue: seq<T>, capacity: nat, hasCallback: bool, thing: T): (r: Outcome<T>)
    ensures r.Stored? <==> |queue| < capacity
    ensures r.Overflowed? ==> r.dropped + r.queue == queue + [thing] && |r.queue| == capacity
  {
    var all := queue + [thing];
    if |all| <= capacity then Stored(all)
    else if hasCallback then Overflowed(all[|all| - capacity..], all[..|all| - capacity])
    else Aborted
  }

  class BlockingQueue<T> {
    var queue: seq<T>
    const capacity: nat
    const hasCallback: bool
    var semaphore: nat
    var handedBack: seq<T>  // what the overflow callback received

    constructor (capacity: nat, hasCallback: bool)
      ensures queue == [] && semaphore == 0 && handedBack == []
      ensures this.capacity == capacity && this.hasCallback == hasCallback
    {
      queue, semaphore, handedBack := [], 0, [];
      this.capacity, this.hasCallback := capacity, hasCallback;
    }

    method Put(thing: T) returns (aborted: bool)
      modifies this
      ensures match PutInto(old(queue), capacity, hasCallback, thing)
              case Stored(q) =>
                !aborted && queue == q && semaphore == old(semaphore) + 1 && handedBack == old(handedBack)
              case Overflowed(q, dropped) =>
                !aborted && queue == q && semaphore == old(semaphore) && handedBack == old(handedBack) + dropped
              case Aborted => aborted && semaphore == old(semaphore)
    {
      queue := queue + [thing];
      ghost var all := queue;
      var didOverflow := false;
      var n := 0;
      while |queue| > capacity
        invariant 0 <= n <= |all| && (n > 0 ==> |all| - n >= capacity)
        invariant queue == all[n..] && handedBack == old(handedBack) + all[..n]
        invariant didOverflow == (n > 0) && (n > 0 ==> hasCallback)
        invariant semaphore == old(semaphore)
        decreases |queue|
      {
        didOverflow := true;
        if hasCallback {
          handedBack := handedBack + [queue[0]];
          queue := queue[1..];
          n := n + 1;
        } else {
          return true;
        }
      }
      if !didOverflow {
        semaphore := semaphore + 1;
      }
      aborted := false;
    }

    /** Waits while the semaphore is 0; the front of an empty list must never be asked for. */
    method GetBlocking() returns (r: Option<T>)
      requires semaphore <= |queue|
      modifies this
      ensures r.None? <==> old(semaphore) == 0
      ensures r.None? ==> queue == old(queue) && semaphore == 0
      ensures r.Some? ==> [r.value] + queue == old(queue) && semaphore == old(semaphore) - 1
      ensures handedBack == old(handedBack)
    {
      if semaphore == 0 {
        return None;
      }
      semaphore := semaphore - 1;
      r := Some(queue[0]);
      queue := queue[1..];
    }
  }
}
