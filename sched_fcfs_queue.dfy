/** The scheduler's first-come first-served tag queue
    (scheduler/heaps/fcfs_queue.hpp): a `std::queue` of tags that takes a
    weight on `push` and ignores it. */
module SchedFcfs {
  import opened Wrappers

  class FcfsQueue<Tag> {
    /** The queued tags, front first. */
    var queue: seq<Tag>
    /** Every tag ever pushed and every tag ever popped, in order. */
    ghost var pushed: seq<Tag>
    ghost var popped: seq<Tag>

    /** The tags popped so far, then those still queued, are exactly the
        tags pushed, in order. */
    ghost predicate Valid()
      reads this
    {
      pushed == popped + queue
    }

    constructor()
      ensures Valid() && queue == [] && pushed == [] && popped == []
    {
      queue := [];
      pushed := [];
      popped := [];
    }

    /** `size`: the pushes not yet matched by a pop. */
    function Size(): (n: nat)
      requires Valid()
      reads this
      ensures n == |pushed| - |popped|
    {
      |queue|
    }

    predicate IsEmpty()
      reads this
    {
      |queue| == 0
    }

    /** `peek`: the front tag, nothing changed; an empty queue throws. */
    method Peek() returns (r: Result<Tag>)
      ensures |queue| == 0 <==> r == Failure(EmptyQueue)
      ensures |queue| > 0 ==> r == Success(queue[0])
    {
      if |queue| == 0 {
        return Failure(EmptyQueue);
      }
      return Success(queue[0]);
    }

    /** `pop`: the front tag leaves; an empty queue throws.  The tags
        popped so far are always a prefix of those pushed. */
    method Pop() returns (r: Result<Tag>)
      requires Valid()
      modifies this
      ensures Valid()
      ensures old(queue) == [] ==> r == Failure(EmptyQueue) && unchanged(this)
      ensures old(queue) != [] ==>
                r == Success(old(queue)[0]) && queue == old(queue)[1..] &&
                popped == old(popped) + [r.value] && pushed == old(pushed)
      ensures popped == pushed[..|popped|]
    {
      if |queue| == 0 {
        return Failure(EmptyQueue);
      }
      var entry := queue[0];
      queue := queue[1..];
      popped := popped + [entry];
      assert pushed == popped + queue;
      return Success(entry);
    }

    /** `push`: the tag goes to the back; the weight plays no part. */
    method Push(tag: Tag, weight: real)
      requires Valid()
      modifies this
      ensures Valid()
      ensures queue == old(queue) + [tag]
      ensures pushed == old(pushed) + [tag] && popped == old(popped)
    {
      queue := queue + [tag];
      pushed := pushed + [tag];
    }
  }
}
