/** The prefetching work cache with its queue and 32-bit counter changed in place. */
module UpstreamServices {
  import opened Common
  import opened PoolRules
  import PoolTheorems

  class UpstreamService {
    const workQueueMin: CacheSize
    var started: bool
    var workQueue: seq<Item>
    var workRequests: nat

    // calls truly in flight, those of them from before the last block, failures since, calls ever
    ghost var inFlight: nat
    ghost var carry: nat
    ghost var failures: nat
    ghost var issued: nat

    ghost function View(): Cache
      reads this
    {
      Cache(started, workQueue, workQueueMin, workRequests, inFlight, carry, failures, issued)
    }

    constructor (min: CacheSize)
      ensures View() == NewCache(min)
    {
      workQueueMin := min;
      started, workQueue, workRequests := false, [], 0;
      inFlight, carry, failures, issued := 0, 0, 0, 0;
    }

    /** One more call of the node's getwork. */
    method CallGetwork()
      modifies this`workRequests, this`inFlight, this`issued
      ensures workRequests == Wrap(old(workRequests) + 1)
      ensures inFlight == old(inFlight) + 1 && issued == old(issued) + 1
    {
      workRequests := Wrap(workRequests + 1);
      inFlight, issued := inFlight + 1, issued + 1;
    }

    method FillWorkQueue()
      modifies this`workRequests, this`inFlight, this`issued
      requires workRequests < TWO_32
      ensures View() == Filled(old(View()))
    {
      ghost var c := View();
      ghost var calls := 0;
      PoolTheorems.WrapSmall(workRequests);
      while Wrap(workRequests + |workQueue|) < workQueueMin
        invariant calls <= Missing(c)
        invariant workRequests == Wrap(c.requests + calls)
        invariant Wrap(workRequests + |workQueue|) == Counted(c) + calls
        invariant inFlight == c.inFlight + calls && issued == c.issued + calls
        decreases Missing(c) - calls
      {
        PoolTheorems.CountOneMore(c.requests + calls, |workQueue|);
        CallGetwork();
        calls := calls + 1;
      }
    }

    method NotifyNewBlock()
      modifies this
      ensures View() == Flushed(old(View()))
    {
      started, workQueue, workRequests := true, [], 0;
      carry, failures := inFlight, 0;
      FillWorkQueue();
    }

    /** A getwork reply; the callback it runs only schedules serve_work. */
    method OnGetworkReply(item: Item)
      requires inFlight > 0
      modifies this`workQueue, this`workRequests, this`inFlight, this`issued
      ensures View() == Received(old(View()), item)
    {
      workQueue := [item] + workQueue;
      workRequests := Wrap(workRequests - 1);
      inFlight := inFlight - 1;
      FillWorkQueue();
    }

    method OnGetworkFailure()
      requires inFlight > 0
      modifies this`inFlight, this`failures
      ensures View() == Failed(old(View()))
    {
      inFlight, failures := inFlight - 1, failures + 1;
    }

    predicate HasWork()
      reads this
    {
      |workQueue| > 0
    }

    method GetWork() returns (work: Item)
      requires HasWork() && workRequests < TWO_32
      modifies this`workQueue, this`workRequests, this`inFlight, this`issued
      ensures work == old(workQueue)[0] && View() == Popped(old(View()))
    {
      work := workQueue[0];
      workQueue := workQueue[1..];
      FillWorkQueue();
    }
  }
}
