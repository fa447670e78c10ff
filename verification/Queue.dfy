/** A double-ended queue over a map from positions to items (`Queue.ts`). */
module Queues {
  import opened Wrappers

  datatype QueueError = EmptyQueue

  ghost function ItemsBetween<T>(data: map<int, T>, head: int, tail: int): (s: seq<T>)
    requires head <= tail && forall i :: head <= i < tail ==> i in data
    ensures |s| == tail - head
  {
    seq(tail - head, i requires 0 <= i < tail - head => data[head + i])
  }

  class Queue<T> {
    var data: map<int, T>
    /** The first index, and the first empty one. */
    var head: int
    var tail: int

    ghost predicate Valid()
      reads this
    {
      head <= tail && forall i :: i in data <==> head <= i < tail
    }

    ghost function Contents(): (s: seq<T>)
      requires Valid()
      reads this
      ensures |s| == tail - head
    {
      ItemsBetween(data, head, tail)
    }

    constructor ()
      ensures Valid() && Contents() == []
    {
      data, head, tail := map[], 0, 0;
    }

    method Push(item: T)
      requires Valid()
      modifies this
      ensures Valid() && Contents() == old(Contents()) + [item]
    {
      data := data[tail := item];
      tail := tail + 1;
    }

    method Prepend(item: T)
      requires Valid()
      modifies this
      ensures Valid() && Contents() == [item] + old(Contents())
    {
      data := data[head - 1 := item];
      head := head - 1;
    }

    /** Removes the first item; on an empty queue it throws and changes nothing. */
    method Shift() returns (r: Result<T, QueueError>)
      requires Valid()
      modifies this
      ensures Valid()
      ensures old(Contents()) == [] ==> r == Err(EmptyQueue) && Contents() == []
      ensures old(Contents()) != [] ==> r == Ok(old(Contents())[0]) && Contents() == old(Contents())[1..]
    {
      r := First();
      if r.Err? {
        return;
      }
      data := data - {head};
      head := head + 1;
    }

    function Size(): (n: int)
      requires Valid()
      reads this
      ensures n == |Contents()|
    {
      tail - head
    }

    function First(): (r: Result<T, QueueError>)
      requires Valid()
      reads this
      ensures Contents() == [] ==> r == Err(EmptyQueue)
      ensures Contents() != [] ==> r == Ok(Contents()[0])
    {
      if Size() > 0 then Ok(data[head]) else Err(EmptyQueue)
    }

    method Destroy()
      modifies this
      ensures Valid() && Contents() == []
    {
      data, head, tail := map[], 0, 0;
    }
  }
}
