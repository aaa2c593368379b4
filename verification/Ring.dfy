/** A ring buffer read as a queue: `count` slots from `head`, wrapping around. */
module Ring {

  /** Index arithmetic modulo the size, for offsets of at most one turn. */
  function Slot(size: nat, head: nat, offset: nat): (r: nat)
    requires head < size && offset <= size
    ensures r < size
  {
    if head + offset < size then head + offset else head + offset - size
  }

  lemma SlotIsModulo(size: nat, head: nat, offset: nat)
    requires head < size && offset <= size
    ensures Slot(size, head, offset) == (head + offset) % size
  {
    var sum := head + offset;
    QuotientBelow(size, sum / size, sum % size, sum);
  }

  lemma QuotientBelow(size: nat, q: nat, r: nat, sum: nat)
    requires sum == q * size + r && r < size && sum < 2 * size
    ensures q == if sum < size then 0 else 1
  {
    if q > 1 {
      MultipleAtLeast(q - 1, size);
    }
  }

  lemma MultipleAtLeast(k: nat, size: nat)
    requires k > 0
    ensures k * size >= size
  {
  }

  function Contents<T>(items: seq<T>, head: nat, count: nat): (r: seq<T>)
    requires head < |items| && count <= |items|
    ensures |r| == count
  {
    seq(count, i requires 0 <= i < count => items[Slot(|items|, head, i)])
  }

  /** Writing at the tail appends. */
  lemma PushAppends<T>(items: seq<T>, head: nat, count: nat, x: T)
    requires head < |items| && count < |items|
    ensures Contents(items[Slot(|items|, head, count) := x], head, count + 1) ==
            Contents(items, head, count) + [x]
  {
  }

  /** Advancing the head removes the first element. */
  lemma PopRemovesFirst<T>(items: seq<T>, head: nat, count: nat)
    requires head < |items| && 0 < count <= |items|
    ensures Contents(items, head, count) ==
            [items[head]] + Contents(items, Slot(|items|, head, 1), count - 1)
  {
  }

  lemma TailAdvances(size: nat, head: nat, count: nat)
    requires head < size && count < size
    ensures (Slot(size, head, count) + 1) % size == Slot(size, head, count + 1)
  {
    SlotIsModulo(size, Slot(size, head, count), 1);
  }

  lemma TailStays(size: nat, head: nat, count: nat)
    requires head < size && 0 < count <= size
    ensures Slot(size, Slot(size, head, 1), count - 1) == Slot(size, head, count)
  {
  }
}
