/** The simulator's fair-queueing queue (simulator/src/queueing/fq_queue.cpp):
    every packet gets a virtual finish time from its flow's virtual clock, and
    the queue serves packets in increasing (virtual time, arrival time)
    order.  The boost binomial heap is modelled by its contents: a sequence
    whose order carries no meaning, from which `pop` takes a heap top. */
module SimFq {
  import opened Wrappers
  import opened Packets
  import opened Utils

  /** Value of `FQFlowMetadata`: queued packets of the flow and the virtual
      clock of its tail packet. */
  datatype FqFlowState = FqFlowState(numPackets: nat, virtualClock: real)

  /** A default-constructed `FQFlowMetadata`, as `data_[id]` creates it. */
  const EmptyFlowState := FqFlowState(0, 0.0)

  class FqFlowMetadata {
    var numPackets: nat
    var virtualClock: real

    constructor Of(s: FqFlowState)
      ensures State() == s
    {
      numPackets := s.numPackets;
      virtualClock := s.virtualClock;
    }

    function State(): FqFlowState
      reads this
    {
      FqFlowState(numPackets, virtualClock)
    }

    /** `push`: the packet finishes one estimated job size after the flow's
        previous tail, or after its own arrival when the flow had nothing
        queued. */
    method Push(p: Packet)
      modifies this
      ensures numPackets == old(numPackets) + 1
      ensures virtualClock == p.jobSizeEstimate +
                (if old(numPackets) != 0 then old(virtualClock) else p.arriveTime)
    {
      virtualClock := p.jobSizeEstimate + (if numPackets != 0 then virtualClock else p.arriveTime);
      numPackets := numPackets + 1;
    }

    /** `pop`: one packet fewer; the result says whether the flow became
        empty.  Popping an empty flow throws. */
    method Pop() returns (r: Result<bool>)
      modifies this
      ensures old(numPackets) == 0 ==> r == Failure(EmptyFlowQueue) && unchanged(this)
      ensures old(numPackets) != 0 ==>
                numPackets == old(numPackets) - 1 && virtualClock == old(virtualClock) &&
                r == Success(numPackets == 0)
    {
      if numPackets == 0 {
        return Failure(EmptyFlowQueue);
      }
      numPackets := numPackets - 1;
      return Success(numPackets == 0);
    }
  }

  /** The number of heap entries that carry a packet of flow `id`. */
  ghost function CountFlow(heap: seq<MinHeapEntry<Packet>>, id: FlowId): (n: nat)
    ensures n <= |heap|
  {
    if |heap| == 0 then 0
    else CountFlow(heap[..|heap| - 1], id) + (if heap[|heap| - 1].tag.flowId == id then 1 else 0)
  }

  lemma {:induction false} CountFlowConcat(a: seq<MinHeapEntry<Packet>>, b: seq<MinHeapEntry<Packet>>, id: FlowId)
    ensures CountFlow(a + b, id) == CountFlow(a, id) + CountFlow(b, id)
    decreases |b|
  {
    if |b| == 0 {
      assert a + b == a;
    } else {
      assert (a + b)[..|a + b| - 1] == a + b[..|b| - 1];
      CountFlowConcat(a, b[..|b| - 1], id);
    }
  }

  /** Taking entry `i` out of the heap lowers exactly its flow's count. */
  lemma CountFlowRemove(heap: seq<MinHeapEntry<Packet>>, i: nat, id: FlowId)
    requires i < |heap|
    ensures CountFlow(heap[..i] + heap[i + 1..], id) ==
            CountFlow(heap, id) - (if heap[i].tag.flowId == id then 1 else 0)
  {
    assert heap == heap[..i] + [heap[i]] + heap[i + 1..];
    CountFlowConcat(heap[..i] + [heap[i]], heap[i + 1..], id);
    CountFlowConcat(heap[..i], [heap[i]], id);
    CountFlowConcat(heap[..i], heap[i + 1..], id);
    assert CountFlow([heap[i]], id) == (if heap[i].tag.flowId == id then 1 else 0) by {
      assert [heap[i]][..0] == [];
    }
  }

  /** A flow with an entry in the heap has a positive count. */
  lemma {:induction false} CountFlowMember(heap: seq<MinHeapEntry<Packet>>, i: nat)
    requires i < |heap|
    ensures CountFlow(heap, heap[i].tag.flowId) > 0
    decreases |heap|
  {
    if i < |heap| - 1 {
      CountFlowMember(heap[..|heap| - 1], i);
    }
  }

  /** Some entry of a heap in which flow `id` counts carries that flow. */
  lemma {:induction false} CountFlowPositive(heap: seq<MinHeapEntry<Packet>>, id: FlowId) returns (i: nat)
    requires CountFlow(heap, id) > 0
    ensures i < |heap| && heap[i].tag.flowId == id
    decreases |heap|
  {
    if heap[|heap| - 1].tag.flowId == id {
      i := |heap| - 1;
    } else {
      i := CountFlowPositive(heap[..|heap| - 1], id);
    }
  }

  function NumPackets(s: FqFlowState): nat { s.numPackets }

  /** The queue's state is consistent: `size_` counts the heap's entries and
      is the sum of the flows' counts; each stored flow counts exactly its
      own heap entries, which makes it non-empty; every entry's flow is
      stored. */
  ghost predicate Consistent(size: nat, data: map<FlowId, FqFlowState>, heap: seq<MinHeapEntry<Packet>>) {
    && size == |heap|
    && size == SumOver(data, NumPackets)
    && CountsMatch(data, heap)
    && EntriesStored(data, heap)
  }

  /** Each stored flow counts exactly its own heap entries, and so is
      non-empty. */
  ghost predicate CountsMatch(data: map<FlowId, FqFlowState>, heap: seq<MinHeapEntry<Packet>>) {
    forall id :: id in data ==> data[id].numPackets == CountFlow(heap, id) > 0
  }

  /** Every heap entry's flow is stored. */
  ghost predicate EntriesStored(data: map<FlowId, FqFlowState>, heap: seq<MinHeapEntry<Packet>>) {
    forall i :: 0 <= i < |heap| ==> heap[i].tag.flowId in data
  }

  /** The metadata of `p`'s flow after `FQFlowMetadata::push(p)`; a flow not
      yet stored starts from the default metadata. */
  function FlowAfterPush(data: map<FlowId, FqFlowState>, p: Packet): (s: FqFlowState)
    ensures s.numPackets == (if p.flowId in data then data[p.flowId].numPackets else 0) + 1
  {
    var s := if p.flowId in data then data[p.flowId] else EmptyFlowState;
    FqFlowState(s.numPackets + 1, p.jobSizeEstimate + (if s.numPackets != 0 then s.virtualClock else p.arriveTime))
  }

  /** The flow table after one packet of flow `id` leaves: the flow is erased
      when that was its last packet. */
  function FlowsAfterPop(data: map<FlowId, FqFlowState>, id: FlowId): (d: map<FlowId, FqFlowState>)
    requires id in data && data[id].numPackets > 0
    ensures id in d <==> data[id].numPackets > 1
    ensures id in d ==> d[id] == data[id].(numPackets := data[id].numPackets - 1)
    ensures forall k :: k != id ==> (k in d <==> k in data) && (k in d ==> d[k] == data[k])
  {
    var s := data[id];
    if s.numPackets == 1 then data - {id} else data[id := FqFlowState(s.numPackets - 1, s.virtualClock)]
  }

  /** In a consistent queue a stored flow's virtual clock is computed from
      its previous clock, a new flow's from the packet's arrival. */
  lemma FlowAfterPushClock(size: nat, data: map<FlowId, FqFlowState>, heap: seq<MinHeapEntry<Packet>>, p: Packet)
    requires Consistent(size, data, heap)
    ensures FlowAfterPush(data, p).virtualClock ==
            p.jobSizeEstimate + (if p.flowId in data then data[p.flowId].virtualClock else p.arriveTime)
  {
  }

  /** `push` keeps the queue consistent. */
  lemma PushConsistent(size: nat, data: map<FlowId, FqFlowState>, heap: seq<MinHeapEntry<Packet>>, p: Packet)
    requires Consistent(size, data, heap)
    ensures var s := FlowAfterPush(data, p);
            Consistent(size + 1, data[p.flowId := s], heap + [MinHeapEntry(p, s.virtualClock, p.arriveTime)])
  {
    var id, s := p.flowId, FlowAfterPush(data, p);
    var e := MinHeapEntry(p, s.virtualClock, p.arriveTime);
    var data', heap' := data[id := s], heap + [e];
    SumOverUpdate(data, NumPackets, id, s);
    assert CountFlow([e], id) == 1 by { assert [e][..0] == []; }
    forall k | k in data'
      ensures data'[k].numPackets == CountFlow(heap', k) > 0
    {
      CountFlowConcat(heap, [e], k);
      assert [e][..0] == [];
      if k == id && id !in data && CountFlow(heap, id) > 0 {
        var i := CountFlowPositive(heap, id);
      }
    }
  }

  /** One packet leaving lowers the sum of the flows' counts by one. */
  lemma PopSumOver(data: map<FlowId, FqFlowState>, id: FlowId)
    requires id in data && data[id].numPackets > 0
    ensures SumOver(FlowsAfterPop(data, id), NumPackets) + 1 == SumOver(data, NumPackets)
  {
    var data' := FlowsAfterPop(data, id);
    SumOverRemove(data, NumPackets, id);
    if id in data' {
      SumOverUpdate(data, NumPackets, id, data'[id]);
      assert data' == data[id := data'[id]];
    } else {
      assert data' == data - {id};
    }
  }

  /** `pop` of heap entry `i` keeps the queue consistent. */
  lemma PopConsistent(size: nat, data: map<FlowId, FqFlowState>, heap: seq<MinHeapEntry<Packet>>, i: nat)
    requires Consistent(size, data, heap) && i < |heap|
    ensures var id := heap[i].tag.flowId;
            id in data && data[id].numPackets > 0 &&
            Consistent(size - 1, FlowsAfterPop(data, id), heap[..i] + heap[i + 1..])
  {
    var id := heap[i].tag.flowId;
    var data', heap' := FlowsAfterPop(data, id), heap[..i] + heap[i + 1..];
    PopSumOver(data, id);
    PopCountsMatch(data, heap, i);
    PopEntriesStored(data, heap, i);
  }

  lemma PopCountsMatch(data: map<FlowId, FqFlowState>, heap: seq<MinHeapEntry<Packet>>, i: nat)
    requires CountsMatch(data, heap) && EntriesStored(data, heap) && i < |heap|
    ensures heap[i].tag.flowId in data
    ensures CountsMatch(FlowsAfterPop(data, heap[i].tag.flowId), heap[..i] + heap[i + 1..])
  {
    var data', heap' := FlowsAfterPop(data, heap[i].tag.flowId), heap[..i] + heap[i + 1..];
    forall k | k in data'
      ensures data'[k].numPackets == CountFlow(heap', k) > 0
    {
      CountFlowRemove(heap, i, k);
    }
  }

  lemma PopEntriesStored(data: map<FlowId, FqFlowState>, heap: seq<MinHeapEntry<Packet>>, i: nat)
    requires CountsMatch(data, heap) && EntriesStored(data, heap) && i < |heap|
    ensures heap[i].tag.flowId in data
    ensures EntriesStored(FlowsAfterPop(data, heap[i].tag.flowId), heap[..i] + heap[i + 1..])
  {
    var data', heap' := FlowsAfterPop(data, heap[i].tag.flowId), heap[..i] + heap[i + 1..];
    forall j | 0 <= j < |heap'|
      ensures heap'[j].tag.flowId in data'
    {
      CountFlowMember(heap', j);
      CountFlowRemove(heap, i, heap'[j].tag.flowId);
    }
  }

  class FqQueue {
    var size: nat
    /** Flow id -> metadata; only flows with queued packets are stored. */
    var data: map<FlowId, FqFlowState>
    /** The heap's entries: a packet, its virtual finish time, its arrival. */
    var heap: seq<MinHeapEntry<Packet>>

    ghost predicate Valid()
      reads this
    {
      Consistent(size, data, heap)
    }

    constructor()
      ensures Valid() && size == 0 && data == map[] && heap == []
    {
      size := 0;
      data := map[];
      heap := [];
    }

    predicate IsEmpty()
      reads this
    {
      size == 0
    }

    static const IsFlowOrderMaintained := true

    /** `push`: the packet's flow gets a new virtual clock (starting from
        the packet's arrival when the flow is new), and the packet enters the
        heap keyed by that clock, ties broken by arrival time. */
    method Push(p: Packet)
      requires Valid()
      modifies this
      ensures Valid()
      ensures size == old(size) + 1
      ensures var clock := p.jobSizeEstimate +
                (if p.flowId in old(data) then old(data)[p.flowId].virtualClock else p.arriveTime);
              var count := if p.flowId in old(data) then old(data)[p.flowId].numPackets else 0;
              data == old(data)[p.flowId := FqFlowState(count + 1, clock)] &&
              heap == old(heap) + [MinHeapEntry(p, clock, p.arriveTime)]
    {
      var id := p.flowId;
      var meta := new FqFlowMetadata.Of(if id in data then data[id] else EmptyFlowState);
      meta.Push(p);
      assert meta.State() == FlowAfterPush(data, p);
      FlowAfterPushClock(size, data, heap, p);
      PushConsistent(size, data, heap, p);
      data := data[id := meta.State()];
      heap := heap + [MinHeapEntry(p, meta.virtualClock, p.arriveTime)];
      size := size + 1;
    }

    /** `pop`: a heap top leaves -- an entry with the smallest virtual time,
        and among those the earliest arrival; its flow loses one packet and
        is forgotten once it has none.  An empty queue throws. */
    method Pop() returns (r: Result<Packet>, ghost top: MinHeapEntry<Packet>)
      requires Valid()
      modifies this
      ensures Valid()
      ensures old(size) == 0 ==> r == Failure(EmptyQueue) && unchanged(this)
      ensures old(size) != 0 ==>
                && r == Success(top.tag)
                && IsHeapTop(top, multiset(old(heap)))
                && multiset(heap) == multiset(old(heap)) - multiset{top}
                && size == old(size) - 1
                && top.tag.flowId in old(data) && old(data)[top.tag.flowId].numPackets > 0
                && data == FlowsAfterPop(old(data), top.tag.flowId)
    {
      if size == 0 {
        return Failure(EmptyQueue), MinHeapEntry(DefaultPacket(), 0.0);
      }
      var i := TopIndex();
      var e := heap[i];
      RemoveEntry(i);
      return Success(e.tag), e;
    }

    /** The position of a heap top. */
    method TopIndex() returns (i: nat)
      requires |heap| > 0
      ensures i < |heap| && IsHeapTop(heap[i], multiset(heap))
    {
      HeapTopExists(multiset(heap));
      i :| 0 <= i < |heap| && IsHeapTop(heap[i], multiset(heap));
    }

    /** Removes heap entry `i` and accounts for it in its flow. */
    method RemoveEntry(i: nat)
      requires Valid() && i < |heap|
      modifies this
      ensures Valid()
      ensures multiset(heap) == multiset(old(heap)) - multiset{old(heap)[i]}
      ensures size == old(size) - 1
      ensures var id := old(heap)[i].tag.flowId;
              id in old(data) && old(data)[id].numPackets > 0 && data == FlowsAfterPop(old(data), id)
    {
      var id := heap[i].tag.flowId;
      PopConsistent(size, data, heap, i);
      assert heap == heap[..i] + [heap[i]] + heap[i + 1..];
      heap := heap[..i] + heap[i + 1..];
      ReleaseFlowPacket(id);
      size := size - 1;
    }

    /** The flow-table half of `pop`: the metadata of flow `id` loses one
        packet and is erased once it has none. */
    method ReleaseFlowPacket(id: FlowId)
      requires id in data && data[id].numPackets > 0
      modifies this
      ensures data == FlowsAfterPop(old(data), id)
      ensures size == old(size) && heap == old(heap)
    {
      var s := data[id];
      var meta := new FqFlowMetadata.Of(s);
      var emptied := meta.Pop();
      if emptied.value {
        data := data - {id};
      } else {
        data := data[id := meta.State()];
      }
    }

    /** `peek`: the packet of a heap top, with no change; an empty queue
        throws. */
    method Peek() returns (r: Result<Packet>)
      requires Valid()
      ensures size == 0 ==> r == Failure(EmptyQueue)
      ensures size != 0 ==> r.Success? && exists e :: IsHeapTop(e, multiset(heap)) && e.tag == r.value
    {
      if size == 0 {
        return Failure(EmptyQueue);
      }
      HeapTopExists(multiset(heap));
      var i :| 0 <= i < |heap| && IsHeapTop(heap[i], multiset(heap));
      return Success(heap[i].tag);
    }
  }
}
