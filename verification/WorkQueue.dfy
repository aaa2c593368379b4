/** The bounded queue between the accepting thread and the workers (lab 16,
    part 2, server 3): what happens to it while its mutex is held. */
module WorkQueue {
  import opened Ring

  class ClientQueue {
    const items: array<int>
    var head: nat
    var tail: nat
    var count: nat

    ghost predicate Valid()
      reads this
    {
      && 0 < items.Length && head < items.Length && count <= items.Length
      && tail == (head + count) % items.Length
    }

    ghost function Queued(): (q: seq<int>)
      requires Valid()
      reads this, items
      ensures |q| == count
    {
      Contents(items[..], head, count)
    }

    constructor (queueSize: nat)
      requires queueSize > 0
      ensures Valid() && fresh(items) && items.Length == queueSize && Queued() == []
    {
      items := new int[queueSize];
      head, tail, count := 0, 0, 0;
    }

    /** One turn of `queue_push` with the mutex held: either the queue is full and
        the caller must wait, or the descriptor goes in at the back. */
    method TryPush(clientFd: int) returns (pushed: bool)
      requires Valid()
      modifies this`tail, this`count, items
      ensures Valid()
      ensures pushed == (|old(Queued())| < items.Length)
      ensures Queued() == if pushed then old(Queued()) + [clientFd] else old(Queued())
    {
      if count == items.Length {
        return false;
      }
      SlotIsModulo(items.Length, head, count);
      PushAppends(items[..], head, count, clientFd);
      TailAdvances(items.Length, head, count);
      SlotIsModulo(items.Length, head, count + 1);
      items[tail] := clientFd;
      tail := (tail + 1) % items.Length;
      count := count + 1;
      return true;
    }

    /** One turn of `queue_pop` with the mutex held: the caller must wait, or takes
        the descriptor at the front. */
    method TryPop() returns (popped: bool, clientFd: int)
      requires Valid()
      modifies this`head, this`count
      ensures Valid()
      ensures popped == (old(Queued()) != [])
      ensures popped ==> old(Queued()) == [clientFd] + Queued()
      ensures !popped ==> Queued() == old(Queued())
    {
      if count == 0 {
        return false, 0;
      }
      PopRemovesFirst(items[..], head, count);
      SlotIsModulo(items.Length, head, 1);
      SlotIsModulo(items.Length, head, count);
      TailStays(items.Length, head, count);
      SlotIsModulo(items.Length, (head + 1) % items.Length, count - 1);
      clientFd := items[head];
      head := (head + 1) % items.Length;
      count := count - 1;
      popped := true;
    }
  }
}
