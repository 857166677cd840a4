/** The counting semaphore that bounds concurrent exchange requests
    (`class Semaphore`). A waiter is named by a number standing for the
    resolver of its pending `acquire`; `release` hands the permit straight
    to the oldest waiter. */
module Semaphores {
  import opened Util

  class Semaphore {
    const capacity: nat
    var current: nat
    var queue: seq<nat>

    /** Never more holders than permits, and nobody waits while a permit is
        free. */
    predicate Valid()
      reads this
    {
      current <= capacity && (queue != [] ==> current == capacity)
    }

    constructor (capacity: nat)
      ensures this.capacity == capacity && current == 0 && queue == []
      ensures Valid()
    {
      this.capacity := capacity;
      current := 0;
      queue := [];
    }

    /** `acquire`: take a free permit at once, or join the back of the
        queue. `granted` says whether the caller's promise resolved
        immediately. */
    method Acquire(waiter: nat) returns (granted: bool)
      requires Valid()
      modifies this
      ensures Valid()
      ensures granted <==> old(current) < capacity
      ensures granted ==> current == old(current) + 1 && queue == old(queue)
      ensures !granted ==> current == old(current) && queue == old(queue) + [waiter]
    {
      if current < capacity {
        current := current + 1;
        granted := true;
      } else {
        queue := queue + [waiter];
        granted := false;
      }
    }

    /** `release`: give the permit back; when someone waits, the permit
        passes to the oldest waiter, who is woken, and the count of holders
        stays the same. The caller must hold a permit. */
    method Release() returns (woken: Option<nat>)
      requires Valid() && current >= 1
      modifies this
      ensures Valid()
      ensures old(queue) == [] ==> woken == None && current == old(current) - 1 && queue == []
      ensures old(queue) != [] ==>
        woken == Some(old(queue)[0]) && current == old(current) && queue == old(queue)[1..]
    {
      current := current - 1;
      if |queue| > 0 {
        current := current + 1;
        var next := queue[0];
        queue := queue[1..];
        woken := Some(next);
      } else {
        woken := None;
      }
    }
  }

  /** Waiters are woken in the order they queued: after any waiter joins a
      full semaphore, the earlier waiters are woken first. */
  method FifoExample() returns (first: Option<nat>, second: Option<nat>)
    ensures first == Some(7) && second == Some(8)
  {
    var s := new Semaphore(1);
    var g := s.Acquire(1);
    var g7 := s.Acquire(7);
    var g8 := s.Acquire(8);
    assert g && !g7 && !g8 && s.queue == [7, 8];
    first := s.Release();
    second := s.Release();
  }
}
