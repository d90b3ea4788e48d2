/** The fixed-capacity ring buffer behind the S3-FIFO ghost queue and the on-disk
    reader's request queue, refined to a sequence.

    Source: graphbolt/src/circular_queue.h. */
module Circular {

  class CircularQueue<T(0)> {
    var tail: int
    var head: int
    const capacity: int   // one cell more than the number of elements it can hold
    const data: array<T>

    ghost predicate Valid()
      reads this, data
    {
      && data.Length == capacity >= 1
      && 0 <= head < capacity && 0 <= tail < capacity
    }

    /** The queued elements, oldest first. */
    ghost function Contents(): (s: seq<T>)
      requires Valid()
      reads this, data
      ensures |s| < capacity
    {
      if head <= tail then data[head..tail] else data[head..] + data[..tail]
    }

    constructor (size: nat)
      ensures Valid() && Contents() == [] && capacity == size + 1 && tail == 0 && fresh(data)
    {
      tail, head := 0, 0;
      capacity := size + 1;
      data := new T[size + 1];
    }

    /** `PostIncrement`. */
    function After(i: int): (j: int)
      requires 0 <= i < capacity
      ensures 0 <= j < capacity
    {
      if i + 1 >= capacity then i + 1 - capacity else i + 1
    }

    function IsFull(): (full: bool)
      requires Valid()
      reads this, data
      ensures full <==> |Contents()| == capacity - 1
    {
      var diff := tail + 1 - head;
      diff == 0 || diff == capacity
    }

    function IsEmpty(): (empty: bool)
      requires Valid()
      reads this, data
      ensures empty <==> Contents() == []
    {
      tail == head
    }

    function Size(): (n: int)
      requires Valid()
      reads this, data
      ensures n == |Contents()|
    {
      var diff := tail - head;
      if diff < 0 then diff + capacity else diff
    }

    /** Appends; there is no overflow check, and overrunning a full queue empties it.
        The returned slot index stands for the returned element pointer. */
    method Push(x: T) returns (slot: int)
      requires Valid()
      modifies this`tail, data
      ensures Valid() && slot == old(tail) && tail == After(slot) && data[slot] == x
      ensures Contents() == if old(IsFull()) then [] else old(Contents()) + [x]
      ensures forall i :: 0 <= i < capacity && i != slot ==> data[i] == old(data[i])
    {
      slot := tail;
      tail := After(tail);
      data[slot] := x;
    }

    method Pop() returns (x: T)
      requires Valid() && Contents() != []
      modifies this`head
      ensures Valid() && [x] + Contents() == old(Contents())
    {
      x := data[head];
      head := After(head);
    }

    method PopN(n: int)
      requires Valid() && 0 <= n <= |Contents()|
      modifies this`head
      ensures Valid() && Contents() == old(Contents())[n..]
    {
      head := head + n;
      if head >= capacity { head := head - capacity; }
    }

    method Clear()
      requires Valid()
      modifies this`head
      ensures Valid() && Contents() == []
    {
      head := tail;
    }

    /** The slot of the j-th queued element. */
    lemma ContentsAt(j: nat)
      requires Valid() && j < |Contents()|
      ensures Contents()[j] == data[if head + j < capacity then head + j else head + j - capacity]
    {
    }
  }
}
