/** The ring buffer behind one service's message queue (skynet_mq.c): an array that doubles when
    it fills, shown to behave as a first-in first-out sequence. */
module MessageQueue {
  import opened Rings

  const DEFAULT_QUEUE_SIZE := 64
  const MQ_OVERLOAD := 1024

  class Queue<T(0)> {
    var queue: array<T>
    var head: nat
    var tail: nat
    var overload: nat
    var overloadThreshold: nat

    ghost predicate Valid()
      reads this, queue
    {
      head < queue.Length && tail < queue.Length && 0 < overloadThreshold
    }

    /** The messages waiting, oldest first. */
    ghost function Contents(): seq<T>
      requires Valid()
      reads this, queue
    {
      Unroll(queue[..], head, tail)
    }

    constructor ()
      ensures Valid() && fresh(queue) && Contents() == []
    {
      queue := new T[DEFAULT_QUEUE_SIZE];
      head, tail, overload, overloadThreshold := 0, 0, 0, MQ_OVERLOAD;
    }

    /** skynet_mq_length. */
    method Length() returns (n: nat)
      requires Valid()
      ensures n == |Contents()|
    {
      n := if head <= tail then tail - head else tail + queue.Length - head;
    }

    /** The part of skynet_mq_pop that raises the overload threshold past the queue's length. */
    method NoteLength(length: nat)
      requires 0 < overloadThreshold
      modifies this`overload, this`overloadThreshold
      ensures 0 < overloadThreshold && length <= overloadThreshold
      ensures if length > old(overloadThreshold) then overload == length && overloadThreshold < 2 * length
              else overload == old(overload) && overloadThreshold == old(overloadThreshold)
    {
      while length > overloadThreshold
        invariant 0 < overloadThreshold
        invariant if overloadThreshold == old(overloadThreshold) then overload == old(overload)
                  else overload == length && old(overloadThreshold) < length && overloadThreshold < 2 * length
        decreases length - overloadThreshold
      {
        overload := length;
        overloadThreshold := overloadThreshold * 2;
      }
    }

    /** skynet_mq_pop, without the in_global flag (see Scheduler.MqPop). */
    method Pop(default: T) returns (found: bool, message: T)
      requires Valid()
      modifies this`head, this`overload, this`overloadThreshold
      ensures Valid()
      ensures found <==> old(Contents()) != []
      ensures found ==> old(Contents()) == [message] + Contents() && |Contents()| <= overloadThreshold
      ensures found ==>
        if |Contents()| > old(overloadThreshold) then overload == |Contents()| && overloadThreshold < 2 * overload
        else overload == old(overload) && overloadThreshold == old(overloadThreshold)
      ensures !found ==> Contents() == [] && overloadThreshold == MQ_OVERLOAD && overload == old(overload)
    {
      hide Unroll;
      found, message := head != tail, default;
      UnrollHead(queue[..], head, tail);
      if found {
        message := queue[head];
        head := head + 1;
        if head >= queue.Length {
          head := 0;
        }
        var length := tail - head;
        if length < 0 {
          length := length + queue.Length;
        }
        UnrollHead(queue[..], head, tail);
        NoteLength(length);
      } else {
        overloadThreshold := MQ_OVERLOAD;
      }
    }

    /** expand_queue: called when a push has just made the ring completely full. */
    method Expand()
      requires Valid() && head == tail
      modifies this
      ensures Valid() && fresh(queue) && Contents() == old(queue[head..] + queue[..head])
      ensures overload == old(overload) && overloadThreshold == old(overloadThreshold)
    {
      var cap := queue.Length;
      ghost var full := queue[head..] + queue[..head];
      var bigger := new T[cap * 2];
      for i := 0 to cap
        invariant forall j :: 0 <= j < i ==> bigger[j] == full[j]
        modifies bigger
      {
        Wrap(head + i, cap);
        bigger[i] := queue[(head + i) % cap];
      }
      assert bigger[..cap] == full;
      head, tail, queue := 0, cap, bigger;
    }

    /** skynet_mq_push, without the in_global flag (see Scheduler.MqPush). */
    method Push(message: T)
      requires Valid()
      modifies this, queue
      ensures Valid() && (queue == old(queue) || fresh(queue))
      ensures Contents() == old(Contents()) + [message]
      ensures overload == old(overload) && overloadThreshold == old(overloadThreshold)
    {
      ghost var before := Contents();
      queue[tail] := message;
      tail := tail + 1;
      if tail >= queue.Length {
        tail := 0;
      }
      if head == tail {
        assert queue[head..] + queue[..head] == before + [message];
        Expand();
      }
    }
  }
}
