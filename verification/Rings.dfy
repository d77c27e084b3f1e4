/** The ring buffer under the item queue and under the loop's ready queue. */
module Rings {
  /** The slot k places after start. */
  function Slot(start: nat, k: nat, capacity: nat): nat
  {
    if start + k < capacity then start + k else start + k - capacity
  }

  lemma Successor(i: nat, capacity: nat)
    requires i < capacity
    ensures (i + 1) % capacity == Slot(i, 1, capacity)
  {}

  class Ring<T> {
    const buf: array<T>
    var head: nat
    var tail: nat
    var count: nat

    predicate Valid()
      reads this
    {
      && count <= buf.Length
      && head <= buf.Length && tail == Slot(head, count, buf.Length)
      && (buf.Length > 0 ==> head < buf.Length)
    }

    function Items(): (r: seq<T>)
      reads this, buf
      requires Valid()
      ensures |r| == count
    {
      if head + count <= buf.Length then
        buf[head..head + count]
      else
        buf[head..] + buf[..head + count - buf.Length]
    }

    constructor (capacity: nat, filler: T)
      ensures Valid() && fresh(buf) && Items() == [] && buf.Length == capacity
    {
      buf := new T[capacity](_ => filler);
      head, tail, count := 0, 0, 0;
    }

    method Push(item: T)
      requires Valid() && count < buf.Length
      modifies this, buf
      ensures Valid() && Items() == old(Items()) + [item]
    {
      Successor(tail, buf.Length);
      buf[tail] := item;
      tail := (tail + 1) % buf.Length;
      count := count + 1;
    }

    method Pop() returns (item: T)
      requires Valid() && count > 0
      modifies this
      ensures Valid() && old(Items()) == [item] + Items()
    {
      Successor(head, buf.Length);
      item := buf[head];
      head := (head + 1) % buf.Length;
      count := count - 1;
    }
  }
}
