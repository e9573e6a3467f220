/** The bounded min-heap of the WSJF policies (scheduler/heaps/bounded_heap.hpp):
    two heaps over the same entries, `queue_` topped by the least weight
    and `drop_queue_` topped by the greatest, so that an over-full push can
    drop the greatest-weight entry.  Each heap is a multiset of entries;
    the handles that tie an entry to its twin in the other heap are left
    implicit in the two multisets being equal. */
module BoundedHeaps {
  import opened Wrappers

  /** `BoundedHeapEntry`: a tag with its primary metric (the weight). */
  datatype Entry<Tag> = Entry(tag: Tag, metric: real)

  /** `operator<` of `BoundedHeapEntry<IsMin>`: reversed for the min-heap
      (`IsMin`), direct for the drop heap. */
  predicate EntryLess<Tag>(isMin: bool, a: Entry<Tag>, b: Entry<Tag>)
  {
    if isMin then a.metric > b.metric else a.metric < b.metric
  }

  /** A boost heap ordered by `operator<` has at its top an entry that no
      other entry is greater than. */
  predicate HeapTop<Tag(==)>(isMin: bool, e: Entry<Tag>, heap: multiset<Entry<Tag>>)
  {
    e in heap && forall x :: x in heap ==> !EntryLess(isMin, e, x)
  }

  /** `e` has the least weight in `m`. */
  ghost predicate IsLightest<Tag>(e: Entry<Tag>, m: multiset<Entry<Tag>>)
  {
    e in m && forall x :: x in m ==> e.metric <= x.metric
  }

  /** `e` has the greatest weight in `m`. */
  ghost predicate IsHeaviest<Tag>(e: Entry<Tag>, m: multiset<Entry<Tag>>)
  {
    e in m && forall x :: x in m ==> x.metric <= e.metric
  }

  /** The reversed comparator puts the least weight on top of `queue_`;
      the direct one puts the greatest on top of `drop_queue_`. */
  lemma TopIsExtreme<Tag>(e: Entry<Tag>, m: multiset<Entry<Tag>>)
    ensures HeapTop(true, e, m) <==> IsLightest(e, m)
    ensures HeapTop(false, e, m) <==> IsHeaviest(e, m)
  {
    if HeapTop(true, e, m) {
      forall x | x in m
        ensures e.metric <= x.metric
      {
        assert !EntryLess(true, e, x);
      }
    }
    if HeapTop(false, e, m) {
      forall x | x in m
        ensures x.metric <= e.metric
      {
        assert !EntryLess(false, e, x);
      }
    }
  }

  /** Every non-empty heap has a top, under either ordering. */
  lemma {:induction false} TopExists<Tag>(isMin: bool, m: multiset<Entry<Tag>>) returns (e: Entry<Tag>)
    requires |m| > 0
    ensures HeapTop(isMin, e, m)
    decreases |m|
  {
    var x :| x in m;
    var rest := m - multiset{x};
    if |rest| == 0 {
      e := x;
      assert m == multiset{x};
    } else {
      var t := TopExists(isMin, rest);
      e := if EntryLess(isMin, t, x) then x else t;
      forall y | y in m
        ensures !EntryLess(isMin, e, y)
      {
        if y != x {
          assert y in rest;
        }
      }
    }
  }

  /** The entries `push` leaves and the tag it reports, given the entries
      before, the entry pushed and the capacity: both heaps take the
      entry, and if that makes them over-full a top of the drop heap
      leaves again and its tag is reported. */
  ghost predicate PushOutcome<Tag>(before: multiset<Entry<Tag>>, e: Entry<Tag>, maxSize: nat,
                                        after: multiset<Entry<Tag>>, erased: Option<Tag>)
  {
    var grown := before + multiset{e};
    if |grown| > maxSize then
      erased.Some? &&
      exists d :: d in grown && HeapTop(false, d, grown) && d.tag == erased.value && after == grown - multiset{d}
    else
      erased == None && after == grown
  }

  /** A push at capacity can drop the very entry it pushed: with room for
      one entry of weight 1, pushing weight 2 reports the pushed tag and
      leaves the heap as it was. */
  lemma PushMayDropItself<Tag>(t1: Tag, t2: Tag, after: multiset<Entry<Tag>>, erased: Option<Tag>)
    requires PushOutcome(multiset{Entry(t1, 1.0)}, Entry(t2, 2.0), 1, after, erased)
    ensures erased == Some(t2) && after == multiset{Entry(t1, 1.0)}
  {
    var grown := multiset{Entry(t1, 1.0)} + multiset{Entry(t2, 2.0)};
    var d :| HeapTop(false, d, grown) && d.tag == erased.value && after == grown - multiset{d};
    assert !EntryLess(false, d, Entry(t2, 2.0));
  }

  /** Whatever a push does, the heap never exceeds its capacity afterwards
      and holds the entries it held plus the one pushed, less at most one. */
  lemma PushBounded<Tag>(before: multiset<Entry<Tag>>, e: Entry<Tag>, maxSize: nat,
                             after: multiset<Entry<Tag>>, erased: Option<Tag>)
    requires |before| <= maxSize && PushOutcome(before, e, maxSize, after, erased)
    ensures |after| <= maxSize
    ensures erased.None? ==> after == before + multiset{e}
    ensures erased.Some? ==>
              |after| == |before| &&
              exists d :: d in before + multiset{e} && d.tag == erased.value &&
                          after + multiset{d} == before + multiset{e}
  {
    var grown := before + multiset{e};
    if |grown| > maxSize {
      var d :| HeapTop(false, d, grown) && d.tag == erased.value && after == grown - multiset{d};
      assert after + multiset{d} == grown;
    }
  }

  class BoundedHeap<Tag(==)> {
    const maxSize: nat
    /** `queue_`, whose top is the least weight. */
    var queue: multiset<Entry<Tag>>
    /** `drop_queue_`, whose top is the greatest weight. */
    var dropQueue: multiset<Entry<Tag>>

    /** Both heaps hold the same entries, and no more than the capacity. */
    ghost predicate Valid()
      reads this
    {
      queue == dropQueue && |queue| <= maxSize
    }

    constructor(maxSize: nat)
      ensures Valid() && this.maxSize == maxSize && queue == multiset{}
    {
      this.maxSize := maxSize;
      queue := multiset{};
      dropQueue := multiset{};
    }

    function Size(): (n: nat)
      requires Valid()
      reads this
      ensures n == |dropQueue| && n <= maxSize
    {
      |queue|
    }

    predicate IsEmpty()
      reads this
    {
      |queue| == 0
    }

    /** `peek`: the tag of a least-weight entry, nothing changed; an empty
        heap throws. */
    method Peek() returns (r: Result<Tag>)
      ensures |queue| == 0 <==> r == Failure(EmptyQueue)
      ensures r.Success? ==> exists e :: IsLightest(e, queue) && e.tag == r.value
    {
      if |queue| == 0 {
        return Failure(EmptyQueue);
      }
      var e := TopOf(true, queue);
      TopIsExtreme(e, queue);
      return Success(e.tag);
    }

    /** `pop`: a least-weight entry leaves both heaps and its tag is
        returned; an empty heap throws. */
    method Pop() returns (r: Result<Tag>)
      requires Valid()
      modifies this
      ensures Valid()
      ensures old(|queue|) == 0 ==> r == Failure(EmptyQueue) && unchanged(this)
      ensures old(|queue|) > 0 ==>
                r.Success? &&
                exists e :: IsLightest(e, old(queue)) && e.tag == r.value &&
                            queue == old(queue) - multiset{e}
    {
      if |queue| == 0 {
        return Failure(EmptyQueue);
      }
      var entry := TopOf(true, queue);
      TopIsExtreme(entry, queue);
      dropQueue := dropQueue - multiset{entry};
      queue := queue - multiset{entry};
      return Success(entry.tag);
    }

    /** `push`: the entry goes into both heaps; if they then exceed the
        capacity, a greatest-weight entry (possibly the one just pushed)
        leaves both and its tag is reported. */
    method Push(tag: Tag, weight: real) returns (erased: Option<Tag>)
      requires Valid()
      modifies this
      ensures Valid()
      ensures PushOutcome(old(queue), Entry(tag, weight), maxSize, queue, erased)
    {
      var entry := Entry(tag, weight);
      queue := queue + multiset{entry};
      dropQueue := dropQueue + multiset{entry};
      if |queue| > maxSize {
        var top := TopOf(false, dropQueue);
        queue := queue - multiset{top};
        dropQueue := dropQueue - multiset{top};
        return Some(top.tag);
      }
      return None;
    }
  }

  /** The entry at the top of a heap (`top()`); ties between equal weights
      are broken by the heap's internal order, which is not modelled. */
  method TopOf<Tag(==)>(isMin: bool, heap: multiset<Entry<Tag>>) returns (e: Entry<Tag>)
    requires |heap| > 0
    ensures HeapTop(isMin, e, heap)
  {
    ghost var t := TopExists(isMin, heap);
    e :| HeapTop(isMin, e, heap);
  }
}
