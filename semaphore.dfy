/** `lib/semaphore/CustomSemaphore.go`: a counting semaphore kept in a
    buffered channel. `count` is `len(s.sem)`, the permits currently held;
    `capacity` is the channel's buffer size. A send that would block (`Take`
    on a full channel) is excluded by its precondition, and so is every
    operation that panics on a closed channel. */
module Semaphore {

  class CustomSemaphore {
    var count: nat
    const capacity: nat
    var closed: bool

    ghost predicate Valid()
      reads this
    {
      count <= capacity
    }

    /** `NewCustomSemaphore(capacity)`: `make` panics on a negative capacity. */
    constructor (capacity: nat)
      ensures Valid()
      ensures this.capacity == capacity && count == 0 && !closed
    {
      this.capacity := capacity;
      count := 0;
      closed := false;
    }

    /** `CurrentlyRunning`: reads the count and changes nothing. */
    method CurrentlyRunning() returns (n: nat)
      requires Valid()
      ensures n == count && n <= capacity
    {
      n := count;
    }

    /** `Close`: closing a closed channel panics. */
    method Close()
      requires Valid() && !closed
      modifies this
      ensures Valid() && closed
      ensures count == old(count)
    {
      closed := true;
    }

    /** `Take`: one more permit held; only possible below capacity and before `Close`. */
    method Take()
      requires Valid() && !closed && count < capacity
      modifies this
      ensures Valid()
      ensures count == old(count) + 1 && closed == old(closed)
    {
      count := count + 1;
    }

    /** `Signal`: gives back one permit when any is held and is a no-op
        otherwise, so the semaphore is never over-released. */
    method Signal()
      requires Valid()
      modifies this
      ensures Valid()
      ensures old(count) > 0 ==> count == old(count) - 1
      ensures old(count) == 0 ==> count == 0
      ensures closed == old(closed)
    {
      if count <= 0 {
        return;
      }
      count := count - 1;
    }
  }
}
