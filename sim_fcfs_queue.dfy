/** The simulator's first-come first-served packet queue
    (simulator/src/queueing/fcfs_queue.cpp): a list with push at the back and
    pop at the front. */
module SimFcfs {
  import opened Wrappers
  import opened Packets

  class FcfsQueue {
    /** The queued packets, front first. */
    var queue: seq<Packet>
    /** Every packet ever pushed and every packet ever popped, in order. */
    ghost var pushed: seq<Packet>
    ghost var popped: seq<Packet>

    /** What has been popped, followed by what is still queued, is exactly
        what was pushed. */
    ghost predicate Valid()
      reads this
    {
      pushed == popped + queue
    }

    constructor()
      ensures Valid() && queue == [] && pushed == [] && popped == []
    {
      queue := [];
      pushed := [];
      popped := [];
    }

    /** `size`: the number of pushes not yet matched by a pop. */
    function Size(): (n: nat)
      requires Valid()
      reads this
      ensures n == |pushed| - |popped|
    {
      |queue|
    }

    predicate IsEmpty()
      reads this
    {
      |queue| == 0
    }

    /** `isFlowOrderMaintained`: packets leave in arrival order. */
    static const IsFlowOrderMaintained := true

    /** `push`: append at the back. */
    method Push(p: Packet)
      requires Valid()
      modifies this
      ensures Valid()
      ensures queue == old(queue) + [p]
      ensures pushed == old(pushed) + [p] && popped == old(popped)
    {
      queue := queue + [p];
      pushed := pushed + [p];
    }

    /** `pop`: the front packet leaves; an empty queue throws.  The packets
        popped so far are always a prefix of those pushed (FIFO). */
    method Pop() returns (r: Result<Packet>)
      requires Valid()
      modifies this
      ensures Valid()
      ensures old(queue) == [] ==> r == Failure(EmptyQueue) && unchanged(this)
      ensures old(queue) != [] ==>
                r == Success(old(queue)[0]) && queue == old(queue)[1..] &&
                popped == old(popped) + [r.value] && pushed == old(pushed)
      ensures popped == pushed[..|popped|]
    {
      if |queue| == 0 {
        return Failure(EmptyQueue);
      }
      var p := queue[0];
      queue := queue[1..];
      popped := popped + [p];
      assert pushed == popped + queue;
      return Success(p);
    }

    /** `peek`: the front packet, with no change; an empty queue throws. */
    method Peek() returns (r: Result<Packet>)
      ensures queue == [] ==> r == Failure(EmptyQueue)
      ensures queue != [] ==> r == Success(queue[0])
    {
      if |queue| == 0 {
        return Failure(EmptyQueue);
      }
      return Success(queue[0]);
    }
  }
}
