/** The simulator's in-order weighted shortest-job-first queue
    (simulator/src/queueing/wsjf_inorder_queue.cpp): packets wait in per-flow
    FIFO queues, and the queue serves the head of the flow whose queued job
    sizes per queued bit, `total_jsize / total_psize`, are smallest.  The boost heap of per-flow
    priorities holds one entry per stored flow (reached through its handle),
    so its contents are modelled as a set of entries. */
module SimWsjfInorder {
  import opened Wrappers
  import opened Packets
  import opened Utils

  /** The sums of the job-size estimates and of the packet sizes of `q`. */
  function SumEstimates(q: seq<Packet>): real {
    if |q| == 0 then 0.0 else q[0].jobSizeEstimate + SumEstimates(q[1..])
  }

  function SumPacketSizes(q: seq<Packet>): nat {
    if |q| == 0 then 0 else q[0].packetSize + SumPacketSizes(q[1..])
  }

  lemma {:induction false} SumsAppend(q: seq<Packet>, p: Packet)
    ensures SumEstimates(q + [p]) == SumEstimates(q) + p.jobSizeEstimate
    ensures SumPacketSizes(q + [p]) == SumPacketSizes(q) + p.packetSize
  {
    if |q| == 0 {
      assert (q + [p])[1..] == [];
    } else {
      assert (q + [p])[1..] == q[1..] + [p];
      SumsAppend(q[1..], p);
    }
  }

  /** Value of `WSJFInorderFlowMetadata`: the flow's queue and the sums of
      its packets' estimates and sizes. */
  datatype WsjfFlowState = WsjfFlowState(queue: seq<Packet>, totalJobSize: real, totalPacketSize: nat)

  /** The running totals are the sums over the queued packets. */
  ghost predicate FlowTotalsHold(s: WsjfFlowState) {
    && s.totalJobSize == SumEstimates(s.queue)
    && s.totalPacketSize == SumPacketSizes(s.queue)
  }

  class WsjfInorderFlowMetadata {
    var queue: seq<Packet>
    var totalJobSize: real
    var totalPacketSize: nat

    constructor()
      ensures State() == WsjfFlowState([], 0.0, 0)
    {
      queue := [];
      totalJobSize := 0.0;
      totalPacketSize := 0;
    }

    constructor Of(s: WsjfFlowState)
      ensures State() == s
    {
      queue := s.queue;
      totalJobSize := s.totalJobSize;
      totalPacketSize := s.totalPacketSize;
    }

    function State(): WsjfFlowState
      reads this
    {
      WsjfFlowState(queue, totalJobSize, totalPacketSize)
    }

    /** `push`: the packet joins the back, its size and estimate the totals. */
    method Push(p: Packet)
      requires FlowTotalsHold(State())
      modifies this
      ensures FlowTotalsHold(State())
      ensures queue == old(queue) + [p]
      ensures totalJobSize == old(totalJobSize) + p.jobSizeEstimate
      ensures totalPacketSize == old(totalPacketSize) + p.packetSize
    {
      SumsAppend(queue, p);
      queue := queue + [p];
      totalPacketSize := totalPacketSize + p.packetSize;
      totalJobSize := totalJobSize + p.jobSizeEstimate;
    }

    /** `pop`: the front packet leaves, and its size and estimate leave the
        totals; an empty flow throws. */
    method Pop() returns (r: Result<Packet>)
      requires FlowTotalsHold(State())
      modifies this
      ensures FlowTotalsHold(State())
      ensures old(queue) == [] ==> r == Failure(EmptyFlowQueue) && unchanged(this)
      ensures old(queue) != [] ==>
                r == Success(old(queue)[0]) && queue == old(queue)[1..] &&
                totalJobSize == old(totalJobSize) - r.value.jobSizeEstimate &&
                totalPacketSize == old(totalPacketSize) - r.value.packetSize
    {
      if |queue| == 0 {
        return Failure(EmptyFlowQueue);
      }
      var p := queue[0];
      totalPacketSize := totalPacketSize - p.packetSize;
      totalJobSize := totalJobSize - p.jobSizeEstimate;
      queue := queue[1..];
      return Success(p);
    }
  }

  /** Every packet of `q` has a positive size, so a non-empty queue has a
      positive total size. */
  lemma SumPacketSizesPositive(q: seq<Packet>)
    requires |q| > 0 && forall i :: 0 <= i < |q| ==> q[i].packetSize > 0
    ensures SumPacketSizes(q) > 0
  {
  }

  /** `getFlowRatio`: queued job size per queued bit. */
  function FlowRatio(s: WsjfFlowState): real
    requires s.totalPacketSize > 0
  {
    s.totalJobSize / (s.totalPacketSize as real)
  }

  /** The heap entry of flow `id` (insertion time left at 0). */
  function PriorityOf(id: FlowId, s: WsjfFlowState): MinHeapEntry<FlowId>
    requires s.totalPacketSize > 0
  {
    MinHeapEntry(id, FlowRatio(s))
  }

  function QueueLength(s: WsjfFlowState): nat { |s.queue| }

  /** A stored flow is non-empty, holds only its own packets, all of
      positive size, and keeps its totals. */
  ghost predicate FlowOk(id: FlowId, s: WsjfFlowState) {
    && |s.queue| > 0
    && FlowTotalsHold(s)
    && s.totalPacketSize > 0
    && forall i :: 0 <= i < |s.queue| ==> s.queue[i].flowId == id && s.queue[i].packetSize > 0
  }

  ghost predicate FlowsOk(data: map<FlowId, WsjfFlowState>) {
    forall id :: id in data ==> FlowOk(id, data[id])
  }

  /** The heap holds exactly one entry per stored flow, carrying the flow's
      current ratio. */
  ghost predicate HeapMatches(data: map<FlowId, WsjfFlowState>, priorities: set<MinHeapEntry<FlowId>>) {
    && (forall e :: e in priorities ==>
          e.tag in data && data[e.tag].totalPacketSize > 0 && e == PriorityOf(e.tag, data[e.tag]))
    && (forall id :: id in data ==> data[id].totalPacketSize > 0 && PriorityOf(id, data[id]) in priorities)
  }

  ghost predicate Consistent(size: nat, data: map<FlowId, WsjfFlowState>, priorities: set<MinHeapEntry<FlowId>>) {
    && FlowsOk(data)
    && size == SumOver(data, QueueLength)
    && HeapMatches(data, priorities)
  }

  /** The flow state of `p`'s flow after the packet is pushed. */
  function FlowAfterPush(data: map<FlowId, WsjfFlowState>, p: Packet): (s: WsjfFlowState)
    ensures |s.queue| > 0 && s.queue[|s.queue| - 1] == p
  {
    var s := if p.flowId in data then data[p.flowId] else WsjfFlowState([], 0.0, 0);
    WsjfFlowState(s.queue + [p], s.totalJobSize + p.jobSizeEstimate, s.totalPacketSize + p.packetSize)
  }

  /** The flow table after the head packet of flow `id` leaves: the rest of
      the flow stays, or the flow is erased once it is empty. */
  function FlowsAfterPop(data: map<FlowId, WsjfFlowState>, id: FlowId): (d: map<FlowId, WsjfFlowState>)
    requires id in data && |data[id].queue| > 0 && FlowTotalsHold(data[id])
    ensures id in d <==> |data[id].queue| > 1
    ensures forall k :: k != id ==> (k in d <==> k in data) && (k in d ==> d[k] == data[k])
  {
    if |data[id].queue| == 1 then data - {id} else data[id := FlowAfterPop(data[id])]
  }

  /** A flow's state after its head packet leaves. */
  function FlowAfterPop(s: WsjfFlowState): (s': WsjfFlowState)
    requires |s.queue| > 0 && FlowTotalsHold(s)
    ensures s'.queue == s.queue[1..]
  {
    WsjfFlowState(s.queue[1..], s.totalJobSize - s.queue[0].jobSizeEstimate,
                  s.totalPacketSize - s.queue[0].packetSize)
  }

  /** The heap after the head packet of flow `id` leaves: the flow is
      re-keyed, or its entry is purged once the flow is empty. */
  function PrioritiesAfterPop(data: map<FlowId, WsjfFlowState>, priorities: set<MinHeapEntry<FlowId>>,
                              id: FlowId): set<MinHeapEntry<FlowId>>
    requires id in data && FlowOk(id, data[id])
  {
    if |data[id].queue| == 1 then priorities - {PriorityOf(id, data[id])}
    else
      SumPacketSizesPositive(data[id].queue[1..]);
      RekeyFlow(data, priorities, id, FlowAfterPop(data[id]))
  }

  /** Heap entries after a flow's state changes from `data[id]` to `s`
      (`update` through the handle, or `push` for a new flow). */
  function RekeyFlow(data: map<FlowId, WsjfFlowState>, priorities: set<MinHeapEntry<FlowId>>,
                     id: FlowId, s: WsjfFlowState): set<MinHeapEntry<FlowId>>
    requires id in data ==> data[id].totalPacketSize > 0
    requires s.totalPacketSize > 0
  {
    (if id in data then priorities - {PriorityOf(id, data[id])} else priorities) + {PriorityOf(id, s)}
  }

  /** The heap top names a flow with the smallest ratio of all stored flows. */
  lemma TopIsMinimumRatio(size: nat, data: map<FlowId, WsjfFlowState>, priorities: set<MinHeapEntry<FlowId>>,
                          top: MinHeapEntry<FlowId>)
    requires Consistent(size, data, priorities)
    requires IsHeapTop(top, multiset(priorities))
    ensures top.tag in data && top == PriorityOf(top.tag, data[top.tag])
    ensures forall id :: id in data ==> FlowRatio(data[top.tag]) <= FlowRatio(data[id])
  {
    HeapTopIsKeyMinimum(top, multiset(priorities));
    forall id | id in data
      ensures FlowRatio(data[top.tag]) <= FlowRatio(data[id])
    {
      assert PriorityOf(id, data[id]) in multiset(priorities);
    }
  }

  /** A non-empty queue has a heap entry. */
  lemma NonEmptyHasPriority(size: nat, data: map<FlowId, WsjfFlowState>, priorities: set<MinHeapEntry<FlowId>>)
    requires Consistent(size, data, priorities) && size > 0
    ensures |multiset(priorities)| > 0
  {
    SumOverPositive(data, QueueLength);
    var id := PickKey(data);
    assert PriorityOf(id, data[id]) in priorities;
  }

  /** Re-keying one flow keeps exactly one entry per flow. */
  lemma RekeyMatches(data: map<FlowId, WsjfFlowState>, priorities: set<MinHeapEntry<FlowId>>,
                     id: FlowId, s: WsjfFlowState)
    requires HeapMatches(data, priorities) && s.totalPacketSize > 0
    ensures HeapMatches(data[id := s], RekeyFlow(data, priorities, id, s))
  {
  }

  /** Dropping a flow together with its entry keeps exactly one entry per
      flow. */
  lemma DropMatches(data: map<FlowId, WsjfFlowState>, priorities: set<MinHeapEntry<FlowId>>, id: FlowId)
    requires HeapMatches(data, priorities) && id in data
    ensures HeapMatches(data - {id}, priorities - {PriorityOf(id, data[id])})
  {
  }

  /** The flow `push` produces is well formed. */
  lemma PushFlowOk(data: map<FlowId, WsjfFlowState>, p: Packet)
    requires FlowsOk(data) && p.packetSize > 0
    ensures FlowsOk(data[p.flowId := FlowAfterPush(data, p)])
  {
    var s := if p.flowId in data then data[p.flowId] else WsjfFlowState([], 0.0, 0);
    SumsAppend(s.queue, p);
    assert FlowOk(p.flowId, FlowAfterPush(data, p));
  }

  /** `push` keeps the queue consistent. */
  lemma PushConsistent(size: nat, data: map<FlowId, WsjfFlowState>, priorities: set<MinHeapEntry<FlowId>>, p: Packet)
    requires Consistent(size, data, priorities) && p.packetSize > 0
    ensures var s := FlowAfterPush(data, p);
            Consistent(size + 1, data[p.flowId := s], RekeyFlow(data, priorities, p.flowId, s))
  {
    var s := FlowAfterPush(data, p);
    PushFlowOk(data, p);
    SumOverUpdate(data, QueueLength, p.flowId, s);
    RekeyMatches(data, priorities, p.flowId, s);
  }

  /** The flows `pop` leaves are well formed. */
  lemma PopFlowOk(data: map<FlowId, WsjfFlowState>, id: FlowId)
    requires FlowsOk(data) && id in data
    ensures FlowsOk(FlowsAfterPop(data, id))
  {
    var s, d := data[id], FlowsAfterPop(data, id);
    if id in d {
      SumPacketSizesPositive(s.queue[1..]);
      assert FlowOk(id, d[id]);
    }
  }

  /** One packet leaving lowers the total length by one. */
  lemma PopSumOver(data: map<FlowId, WsjfFlowState>, id: FlowId)
    requires id in data && |data[id].queue| > 0 && FlowTotalsHold(data[id])
    ensures SumOver(FlowsAfterPop(data, id), QueueLength) + 1 == SumOver(data, QueueLength)
  {
    SumOverRemove(data, QueueLength, id);
    if |data[id].queue| > 1 {
      SumOverUpdate(data, QueueLength, id, FlowAfterPop(data[id]));
    }
  }

  /** `pop` of flow `id`'s head keeps the queue consistent. */
  lemma PopConsistent(size: nat, data: map<FlowId, WsjfFlowState>, priorities: set<MinHeapEntry<FlowId>>, id: FlowId)
    requires Consistent(size, data, priorities) && id in data
    ensures Consistent(size - 1, FlowsAfterPop(data, id), PrioritiesAfterPop(data, priorities, id))
  {
    PopFlowOk(data, id);
    PopSumOver(data, id);
    if |data[id].queue| == 1 {
      DropMatches(data, priorities, id);
    } else {
      SumPacketSizesPositive(data[id].queue[1..]);
      RekeyMatches(data, priorities, id, FlowAfterPop(data[id]));
    }
  }

  class WsjfInorderQueue {
    var size: nat
    var priorities: set<MinHeapEntry<FlowId>>
    var data: map<FlowId, WsjfFlowState>

    ghost predicate Valid()
      reads this
    {
      Consistent(size, data, priorities)
    }

    constructor()
      ensures Valid() && size == 0 && data == map[] && priorities == {}
    {
      size := 0;
      priorities := {};
      data := map[];
    }

    predicate IsEmpty()
      reads this
    {
      size == 0
    }

    static const IsFlowOrderMaintained := true

    /** `push`: the packet joins its flow's queue (the flow and its heap entry
        are created on first sight) and the flow's priority is recomputed. */
    method Push(p: Packet)
      requires Valid() && p.packetSize > 0
      modifies this
      ensures Valid()
      ensures size == old(size) + 1
      ensures var s := FlowAfterPush(old(data), p);
              data == old(data)[p.flowId := s] &&
              priorities == RekeyFlow(old(data), old(priorities), p.flowId, s)
    {
      PushConsistent(size, data, priorities, p);
      PushState(p);
    }

    /** The state changes of `push`, apart from the invariant. */
    method PushState(p: Packet)
      requires p.flowId in data ==> FlowTotalsHold(data[p.flowId]) && data[p.flowId].totalPacketSize > 0
      requires p.packetSize > 0
      modifies this
      ensures size == old(size) + 1
      ensures var s := FlowAfterPush(old(data), p);
              data == old(data)[p.flowId := s] &&
              priorities == RekeyFlow(old(data), old(priorities), p.flowId, s)
    {
      var id := p.flowId;
      var meta: WsjfInorderFlowMetadata;
      if id !in data {
        meta := new WsjfInorderFlowMetadata();
      } else {
        meta := new WsjfInorderFlowMetadata.Of(data[id]);
      }
      meta.Push(p);
      var s := meta.State();
      if id in data {
        priorities := priorities - {PriorityOf(id, data[id])} + {PriorityOf(id, s)};
      } else {
        priorities := priorities + {PriorityOf(id, s)};
      }
      data := data[id := s];
      size := size + 1;
    }

    /** The heap top: an entry of the flow with the smallest ratio. */
    method Top() returns (top: MinHeapEntry<FlowId>)
      requires Valid() && size > 0
      ensures top in priorities && IsHeapTop(top, multiset(priorities))
      ensures top.tag in data && top == PriorityOf(top.tag, data[top.tag])
      ensures forall id :: id in data ==> FlowRatio(data[top.tag]) <= FlowRatio(data[id])
    {
      NonEmptyHasPriority(size, data, priorities);
      HeapTopExists(multiset(priorities));
      top :| top in priorities && IsHeapTop(top, multiset(priorities));
      TopIsMinimumRatio(size, data, priorities, top);
    }

    /** `pop`: the head packet of a flow with the smallest job size per bit
        leaves; the flow's priority is recomputed, or the flow and its heap
        entry are purged once it is empty.  An empty queue throws. */
    method Pop() returns (r: Result<Packet>)
      requires Valid()
      modifies this
      ensures Valid()
      ensures old(size) == 0 ==> r == Failure(EmptyQueue) && unchanged(this)
      ensures old(size) != 0 ==>
                && r.Success?
                && var id := r.value.flowId;
                   && id in old(data) && r.value == old(data)[id].queue[0]
                   && (forall k :: k in old(data) ==> FlowRatio(old(data)[id]) <= FlowRatio(old(data)[k]))
                   && data == FlowsAfterPop(old(data), id)
                   && size == old(size) - 1
    {
      if size == 0 {
        return Failure(EmptyQueue);
      }
      var top := Top();
      var id := top.tag;
      assert data[id].queue[0].flowId == id;
      PopConsistent(size, data, priorities, id);
      r := PopState(id, top);
    }

    /** The state changes of `pop` for flow `id`, apart from the invariant. */
    method PopState(id: FlowId, top: MinHeapEntry<FlowId>) returns (r: Result<Packet>)
      requires id in data && FlowOk(id, data[id])
      requires top == PriorityOf(id, data[id]) && size > 0
      modifies this
      ensures r == Success(old(data)[id].queue[0])
      ensures data == FlowsAfterPop(old(data), id)
      ensures priorities == PrioritiesAfterPop(old(data), old(priorities), id)
      ensures size == old(size) - 1
    {
      var s := data[id];
      var meta := new WsjfInorderFlowMetadata.Of(s);
      r := meta.Pop();
      var rest := meta.State();
      if |rest.queue| > 0 {
        SumPacketSizesPositive(rest.queue);
        priorities := priorities - {top} + {PriorityOf(id, rest)};
        data := data[id := rest];
      } else {
        priorities := priorities - {top};
        data := data - {id};
      }
      size := size - 1;
    }

    /** `peek`: the head packet of a flow with the smallest job size per bit,
        with no change; an empty queue throws. */
    method Peek() returns (r: Result<Packet>)
      requires Valid()
      ensures size == 0 ==> r == Failure(EmptyQueue)
      ensures size != 0 ==>
                && r.Success?
                && var id := r.value.flowId;
                   && id in data && r.value == data[id].queue[0]
                   && forall k :: k in data ==> FlowRatio(data[id]) <= FlowRatio(data[k])
    {
      if size == 0 {
        return Failure(EmptyQueue);
      }
      var top := Top();
      r := Success(data[top.tag].queue[0]);
    }
  }
}
