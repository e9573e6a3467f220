/** The simulator's in-order shortest-job-first queue
    (simulator/src/queueing/sjf_inorder_queue.cpp): packets wait in per-flow
    FIFO queues, and the queue serves the head of the flow whose average
    queued job-size estimate is smallest.  The boost heap of per-flow
    priorities holds one entry per stored flow (reached through its handle),
    so its contents are modelled as a set of entries. */
module SimSjfInorder {
  import opened Wrappers
  import opened Packets
  import opened Utils

  /** The sum of the job-size estimates of `q`. */
  function SumEstimates(q: seq<Packet>): real {
    if |q| == 0 then 0.0 else q[0].jobSizeEstimate + SumEstimates(q[1..])
  }

  lemma {:induction false} SumEstimatesAppend(q: seq<Packet>, p: Packet)
    ensures SumEstimates(q + [p]) == SumEstimates(q) + p.jobSizeEstimate
  {
    if |q| == 0 {
      assert (q + [p])[1..] == [];
    } else {
      assert (q + [p])[1..] == q[1..] + [p];
      SumEstimatesAppend(q[1..], p);
    }
  }

  lemma {:induction false} SumEstimatesNonNegative(q: seq<Packet>)
    requires forall i :: 0 <= i < |q| ==> q[i].jobSizeEstimate >= 0.0
    ensures SumEstimates(q) >= 0.0
  {
    if |q| > 0 {
      SumEstimatesNonNegative(q[1..]);
    }
  }

  /** Value of `SJFInorderFlowMetadata`: the flow's queue and the sum of its
      packets' estimates. */
  datatype SjfFlowState = SjfFlowState(queue: seq<Packet>, totalJobSize: real)

  /** The running total is the sum over the queued packets, whose estimates
      are never negative. */
  ghost predicate FlowTotalsHold(s: SjfFlowState) {
    && s.totalJobSize == SumEstimates(s.queue)
    && forall i :: 0 <= i < |s.queue| ==> s.queue[i].jobSizeEstimate >= 0.0
  }

  class SjfInorderFlowMetadata {
    var queue: seq<Packet>
    var totalJobSize: real

    constructor()
      ensures State() == SjfFlowState([], 0.0)
    {
      queue := [];
      totalJobSize := 0.0;
    }

    constructor Of(s: SjfFlowState)
      ensures State() == s
    {
      queue := s.queue;
      totalJobSize := s.totalJobSize;
    }

    function State(): SjfFlowState
      reads this
    {
      SjfFlowState(queue, totalJobSize)
    }

    /** `push`: the packet joins the back and its estimate the total. */
    method Push(p: Packet)
      requires FlowTotalsHold(State()) && p.jobSizeEstimate >= 0.0
      modifies this
      ensures FlowTotalsHold(State())
      ensures queue == old(queue) + [p]
      ensures totalJobSize == old(totalJobSize) + p.jobSizeEstimate
    {
      SumEstimatesAppend(queue, p);
      queue := queue + [p];
      totalJobSize := totalJobSize + p.jobSizeEstimate;
    }

    /** `pop`: the front packet leaves and its estimate leaves the total,
        which stays non-negative; an empty flow throws. */
    method Pop() returns (r: Result<Packet>)
      requires FlowTotalsHold(State())
      modifies this
      ensures FlowTotalsHold(State())
      ensures old(queue) == [] ==> r == Failure(EmptyFlowQueue) && unchanged(this)
      ensures old(queue) != [] ==>
                r == Success(old(queue)[0]) && queue == old(queue)[1..] &&
                totalJobSize == old(totalJobSize) - r.value.jobSizeEstimate
      ensures totalJobSize >= 0.0
    {
      if |queue| == 0 {
        SumEstimatesNonNegative(queue);
        return Failure(EmptyFlowQueue);
      }
      var p := queue[0];
      totalJobSize := totalJobSize - p.jobSizeEstimate;
      SumEstimatesNonNegative(queue[1..]);
      assert totalJobSize >= 0.0;
      queue := queue[1..];
      return Success(p);
    }
  }

  /** `getFlowRatio`: the flow's average queued estimate. */
  function FlowRatio(s: SjfFlowState): real
    requires |s.queue| > 0
  {
    s.totalJobSize / (|s.queue| as real)
  }

  /** The heap entry of flow `id` (insertion time left at 0). */
  function PriorityOf(id: FlowId, s: SjfFlowState): MinHeapEntry<FlowId>
    requires |s.queue| > 0
  {
    MinHeapEntry(id, FlowRatio(s))
  }

  function QueueLength(s: SjfFlowState): nat { |s.queue| }

  /** A stored flow is non-empty, holds only its own packets and keeps its
      totals. */
  ghost predicate FlowOk(id: FlowId, s: SjfFlowState) {
    && |s.queue| > 0
    && FlowTotalsHold(s)
    && forall i :: 0 <= i < |s.queue| ==> s.queue[i].flowId == id
  }

  ghost predicate FlowsOk(data: map<FlowId, SjfFlowState>) {
    forall id :: id in data ==> FlowOk(id, data[id])
  }

  /** The heap holds exactly one entry per stored flow, carrying the flow's
      current ratio. */
  ghost predicate HeapMatches(data: map<FlowId, SjfFlowState>, priorities: set<MinHeapEntry<FlowId>>) {
    && (forall e :: e in priorities ==>
          e.tag in data && |data[e.tag].queue| > 0 && e == PriorityOf(e.tag, data[e.tag]))
    && (forall id :: id in data ==> |data[id].queue| > 0 && PriorityOf(id, data[id]) in priorities)
  }

  ghost predicate Consistent(size: nat, data: map<FlowId, SjfFlowState>, priorities: set<MinHeapEntry<FlowId>>) {
    && FlowsOk(data)
    && size == SumOver(data, QueueLength)
    && HeapMatches(data, priorities)
  }

  /** The flow state of `p`'s flow after the packet is pushed. */
  function FlowAfterPush(data: map<FlowId, SjfFlowState>, p: Packet): (s: SjfFlowState)
    ensures |s.queue| > 0 && s.queue[|s.queue| - 1] == p
  {
    var s := if p.flowId in data then data[p.flowId] else SjfFlowState([], 0.0);
    SjfFlowState(s.queue + [p], s.totalJobSize + p.jobSizeEstimate)
  }

  /** The flow table after the head packet of flow `id` leaves: the rest of
      the flow stays, or the flow is erased once it is empty. */
  function FlowsAfterPop(data: map<FlowId, SjfFlowState>, id: FlowId): (d: map<FlowId, SjfFlowState>)
    requires id in data && |data[id].queue| > 0
    ensures id in d <==> |data[id].queue| > 1
    ensures forall k :: k != id ==> (k in d <==> k in data) && (k in d ==> d[k] == data[k])
  {
    if |data[id].queue| == 1 then data - {id} else data[id := FlowAfterPop(data[id])]
  }

  /** A flow's state after its head packet leaves. */
  function FlowAfterPop(s: SjfFlowState): (s': SjfFlowState)
    requires |s.queue| > 0
    ensures s'.queue == s.queue[1..]
  {
    SjfFlowState(s.queue[1..], s.totalJobSize - s.queue[0].jobSizeEstimate)
  }

  /** The heap after the head packet of flow `id` leaves: the flow is
      re-keyed, or its entry is purged once the flow is empty. */
  function PrioritiesAfterPop(data: map<FlowId, SjfFlowState>, priorities: set<MinHeapEntry<FlowId>>,
                              id: FlowId): set<MinHeapEntry<FlowId>>
    requires id in data && |data[id].queue| > 0
  {
    if |data[id].queue| == 1 then priorities - {PriorityOf(id, data[id])}
    else RekeyFlow(data, priorities, id, FlowAfterPop(data[id]))
  }

  /** Heap entries after a flow's state changes from `data[id]` to `s`
      (`update` through the handle, or `push` for a new flow). */
  function RekeyFlow(data: map<FlowId, SjfFlowState>, priorities: set<MinHeapEntry<FlowId>>,
                     id: FlowId, s: SjfFlowState): set<MinHeapEntry<FlowId>>
    requires id in data ==> |data[id].queue| > 0
    requires |s.queue| > 0
  {
    (if id in data then priorities - {PriorityOf(id, data[id])} else priorities) + {PriorityOf(id, s)}
  }

  /** The heap top names a flow with the smallest ratio of all stored flows. */
  lemma TopIsMinimumRatio(size: nat, data: map<FlowId, SjfFlowState>, priorities: set<MinHeapEntry<FlowId>>,
                          top: MinHeapEntry<FlowId>)
    requires Consistent(size, data, priorities)
    requires IsHeapTop(top, multiset(priorities))
    ensures top.tag in data && top == PriorityOf(top.tag, data[top.tag])
    ensures forall id :: id in data ==> FlowRatio(data[top.tag]) <= FlowRatio(data[id])
  {
    HeapTopIsKeyMinimum(top, multiset(priorities));
    forall id | id in data
      ensures FlowRatio(data[top.tag]) <= FlowRatio(data[id])
    {
      assert PriorityOf(id, data[id]) in multiset(priorities);
    }
  }

  /** A non-empty queue has a heap entry. */
  lemma NonEmptyHasPriority(size: nat, data: map<FlowId, SjfFlowState>, priorities: set<MinHeapEntry<FlowId>>)
    requires Consistent(size, data, priorities) && size > 0
    ensures |multiset(priorities)| > 0
  {
    SumOverPositive(data, QueueLength);
    var id := PickKey(data);
    assert PriorityOf(id, data[id]) in priorities;
  }

  /** Re-keying one flow keeps exactly one entry per flow. */
  lemma RekeyMatches(data: map<FlowId, SjfFlowState>, priorities: set<MinHeapEntry<FlowId>>,
                     id: FlowId, s: SjfFlowState)
    requires HeapMatches(data, priorities) && |s.queue| > 0
    ensures HeapMatches(data[id := s], RekeyFlow(data, priorities, id, s))
  {
  }

  /** Dropping a flow together with its entry keeps exactly one entry per
      flow. */
  lemma DropMatches(data: map<FlowId, SjfFlowState>, priorities: set<MinHeapEntry<FlowId>>, id: FlowId)
    requires HeapMatches(data, priorities) && id in data
    ensures HeapMatches(data - {id}, priorities - {PriorityOf(id, data[id])})
  {
  }

  /** The flow `push` produces is well formed. */
  lemma PushFlowOk(data: map<FlowId, SjfFlowState>, p: Packet)
    requires FlowsOk(data) && p.jobSizeEstimate >= 0.0
    ensures FlowsOk(data[p.flowId := FlowAfterPush(data, p)])
  {
    var s := if p.flowId in data then data[p.flowId] else SjfFlowState([], 0.0);
    SumEstimatesAppend(s.queue, p);
    assert FlowOk(p.flowId, FlowAfterPush(data, p));
  }

  /** `push` keeps the queue consistent. */
  lemma PushConsistent(size: nat, data: map<FlowId, SjfFlowState>, priorities: set<MinHeapEntry<FlowId>>, p: Packet)
    requires Consistent(size, data, priorities) && p.jobSizeEstimate >= 0.0
    ensures var s := FlowAfterPush(data, p);
            Consistent(size + 1, data[p.flowId := s], RekeyFlow(data, priorities, p.flowId, s))
  {
    var s := FlowAfterPush(data, p);
    PushFlowOk(data, p);
    SumOverUpdate(data, QueueLength, p.flowId, s);
    RekeyMatches(data, priorities, p.flowId, s);
  }

  /** The flows `pop` leaves are well formed. */
  lemma PopFlowOk(data: map<FlowId, SjfFlowState>, id: FlowId)
    requires FlowsOk(data) && id in data
    ensures FlowsOk(FlowsAfterPop(data, id))
  {
    var s, d := data[id], FlowsAfterPop(data, id);
    if id in d {
      SumEstimatesNonNegative(s.queue[1..]);
      assert FlowOk(id, d[id]);
    }
  }

  /** One packet leaving lowers the total length by one. */
  lemma PopSumOver(data: map<FlowId, SjfFlowState>, id: FlowId)
    requires id in data && |data[id].queue| > 0
    ensures SumOver(FlowsAfterPop(data, id), QueueLength) + 1 == SumOver(data, QueueLength)
  {
    SumOverRemove(data, QueueLength, id);
    if |data[id].queue| > 1 {
      SumOverUpdate(data, QueueLength, id, FlowAfterPop(data[id]));
    }
  }

  /** `pop` of flow `id`'s head keeps the queue consistent. */
  lemma PopConsistent(size: nat, data: map<FlowId, SjfFlowState>, priorities: set<MinHeapEntry<FlowId>>, id: FlowId)
    requires Consistent(size, data, priorities) && id in data
    ensures Consistent(size - 1, FlowsAfterPop(data, id), PrioritiesAfterPop(data, priorities, id))
  {
    PopFlowOk(data, id);
    PopSumOver(data, id);
    if |data[id].queue| == 1 {
      DropMatches(data, priorities, id);
    } else {
      RekeyMatches(data, priorities, id, FlowAfterPop(data[id]));
    }
  }

  class SjfInorderQueue {
    var size: nat
    var priorities: set<MinHeapEntry<FlowId>>
    var data: map<FlowId, SjfFlowState>

    ghost predicate Valid()
      reads this
    {
      Consistent(size, data, priorities)
    }

    constructor()
      ensures Valid() && size == 0 && data == map[] && priorities == {}
    {
      size := 0;
      priorities := {};
      data := map[];
    }

    predicate IsEmpty()
      reads this
    {
      size == 0
    }

    static const IsFlowOrderMaintained := true

    /** `push`: the packet joins its flow's queue (the flow and its heap entry
        are created on first sight) and the flow's priority is recomputed. */
    method Push(p: Packet)
      requires Valid() && p.jobSizeEstimate >= 0.0
      modifies this
      ensures Valid()
      ensures size == old(size) + 1
      ensures var s := FlowAfterPush(old(data), p);
              data == old(data)[p.flowId := s] &&
              priorities == RekeyFlow(old(data), old(priorities), p.flowId, s)
    {
      PushConsistent(size, data, priorities, p);
      PushState(p);
    }

    /** The state changes of `push`, apart from the invariant. */
    method PushState(p: Packet)
      requires p.flowId in data ==> FlowTotalsHold(data[p.flowId]) && |data[p.flowId].queue| > 0
      requires p.jobSizeEstimate >= 0.0
      modifies this
      ensures size == old(size) + 1
      ensures var s := FlowAfterPush(old(data), p);
              data == old(data)[p.flowId := s] &&
              priorities == RekeyFlow(old(data), old(priorities), p.flowId, s)
    {
      var id := p.flowId;
      var meta: SjfInorderFlowMetadata;
      if id !in data {
        meta := new SjfInorderFlowMetadata();
      } else {
        meta := new SjfInorderFlowMetadata.Of(data[id]);
      }
      meta.Push(p);
      var s := meta.State();
      if id in data {
        priorities := priorities - {PriorityOf(id, data[id])} + {PriorityOf(id, s)};
      } else {
        priorities := priorities + {PriorityOf(id, s)};
      }
      data := data[id := s];
      size := size + 1;
    }

    /** The heap top: an entry of the flow with the smallest ratio. */
    method Top() returns (top: MinHeapEntry<FlowId>)
      requires Valid() && size > 0
      ensures top in priorities && IsHeapTop(top, multiset(priorities))
      ensures top.tag in data && top == PriorityOf(top.tag, data[top.tag])
      ensures forall id :: id in data ==> FlowRatio(data[top.tag]) <= FlowRatio(data[id])
    {
      NonEmptyHasPriority(size, data, priorities);
      HeapTopExists(multiset(priorities));
      top :| top in priorities && IsHeapTop(top, multiset(priorities));
      TopIsMinimumRatio(size, data, priorities, top);
    }

    /** `pop`: the head packet of a flow with the smallest average estimate
        leaves; the flow's priority is recomputed, or the flow and its heap
        entry are purged once it is empty.  An empty queue throws. */
    method Pop() returns (r: Result<Packet>)
      requires Valid()
      modifies this
      ensures Valid()
      ensures old(size) == 0 ==> r == Failure(EmptyQueue) && unchanged(this)
      ensures old(size) != 0 ==>
                && r.Success?
                && var id := r.value.flowId;
                   && id in old(data) && r.value == old(data)[id].queue[0]
                   && (forall k :: k in old(data) ==> FlowRatio(old(data)[id]) <= FlowRatio(old(data)[k]))
                   && data == FlowsAfterPop(old(data), id)
                   && size == old(size) - 1
    {
      if size == 0 {
        return Failure(EmptyQueue);
      }
      var top := Top();
      var id := top.tag;
      assert data[id].queue[0].flowId == id;
      PopConsistent(size, data, priorities, id);
      r := PopState(id, top);
    }

    /** The state changes of `pop` for flow `id`, apart from the invariant. */
    method PopState(id: FlowId, top: MinHeapEntry<FlowId>) returns (r: Result<Packet>)
      requires id in data && FlowTotalsHold(data[id]) && |data[id].queue| > 0
      requires top == PriorityOf(id, data[id]) && size > 0
      modifies this
      ensures r == Success(old(data)[id].queue[0])
      ensures data == FlowsAfterPop(old(data), id)
      ensures priorities == PrioritiesAfterPop(old(data), old(priorities), id)
      ensures size == old(size) - 1
    {
      var s := data[id];
      var meta := new SjfInorderFlowMetadata.Of(s);
      r := meta.Pop();
      var rest := meta.State();
      if |rest.queue| > 0 {
        priorities := priorities - {top} + {PriorityOf(id, rest)};
        data := data[id := rest];
      } else {
        priorities := priorities - {top};
        data := data - {id};
      }
      size := size - 1;
    }

    /** `peek`: the head packet of a flow with the smallest average estimate,
        with no change; an empty queue throws. */
    method Peek() returns (r: Result<Packet>)
      requires Valid()
      ensures size == 0 ==> r == Failure(EmptyQueue)
      ensures size != 0 ==>
                && r.Success?
                && var id := r.value.flowId;
                   && id in data && r.value == data[id].queue[0]
                   && forall k :: k in data ==> FlowRatio(data[id]) <= FlowRatio(data[k])
    {
      if size == 0 {
        return Failure(EmptyQueue);
      }
      var top := Top();
      r := Success(data[top.tag].queue[0]);
    }
  }
}
