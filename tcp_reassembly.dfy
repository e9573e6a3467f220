/** TCP reassembly (simulator/src/applications/tcp_reassembly.cpp): the
    per-flow state `TCPFlowState`, whose `process` edits its out-of-order
    list in place, and the application `TCPReassembly`, which keeps one flow
    state per flow id.  Both are proved to follow the value-level
    specification in module TcpSpec. */
module TcpReassemblyApp {
  import opened Numeric
  import opened Packets
  import opened Applications
  import opened TcpSpec

  /** `TCPFlowState`: the out-of-order list and the next expected PSN. */
  class TcpFlowState {
    var oooList: seq<Range>
    var nextPsn: U32

    /** A fresh flow: empty list, next expected PSN 0. */
    constructor()
      ensures State() == InitialFlowState
    {
      oooList := [];
      nextPsn := 0;
    }

    /** A copy of a stored flow state. */
    constructor Copy(st: FlowState)
      ensures State() == st
    {
      oooList := st.oooList;
      nextPsn := st.nextPsn;
    }

    function State(): FlowState
      reads this
    {
      FlowState(oooList, nextPsn)
    }

    /** `getIteratorAfterInsertionPosition`: walks the list until a range
        whose end is at least `e`, counting the ranges visited. */
    method InsertionPosition(e: U32) returns (pos: nat, traversals: nat)
      ensures pos == FirstEndAtLeast(oooList, e)
      ensures traversals == SearchTraversals(oooList, e)
      ensures pos <= |oooList|
      ensures forall j :: 0 <= j < pos ==> oooList[j].1 < e
      ensures pos < |oooList| ==> e <= oooList[pos].1
    {
      pos, traversals := 0, 0;
      while pos < |oooList|
        invariant pos <= |oooList| && traversals == pos
        invariant forall j :: 0 <= j < pos ==> oooList[j].1 < e
      {
        traversals := traversals + 1;
        if e <= oooList[pos].1 {
          break;
        }
        pos := pos + 1;
      }
      FirstEndAtLeastUnique(oooList, e, pos);
    }

    /** The backward erasure of `process`, starting just before index `pos`:
        ranges starting at or after `first` are erased, and the start is then
        clipped to the end of the range kept before them.  Returns the new
        index of the range at `pos` and the clipped start. */
    method EraseCovered(pos: nat, first: U32) returns (next: nat, start: U32)
      requires pos <= |oooList|
      modifies this
      ensures var k := KeptBefore(old(oooList), pos, first);
        next == k &&
        oooList == old(oooList)[..k] + old(oooList)[pos..] &&
        start == (if k > 0 then MaxU32(first, old(oooList)[k - 1].1) else first)
      ensures nextPsn == old(nextPsn)
    {
      ghost var list := oooList;
      next, start := pos, first;
      if pos > 0 {
        var prev := pos - 1;
        while prev > 0 && oooList[prev].0 >= first
          invariant next == prev + 1 <= pos
          invariant oooList == list[..next] + list[pos..]
          invariant KeptBefore(list, next, first) == KeptBefore(list, pos, first)
          invariant nextPsn == old(nextPsn)
        {
          assert list[prev].0 >= first;
          oooList := oooList[..prev] + oooList[prev + 1..];
          assert oooList == list[..prev] + list[pos..];
          prev := prev - 1;
          next := next - 1;
        }
        if oooList[prev].0 >= first {
          // the new head is covered as well
          assert prev == 0 && list[0].0 >= first;
          oooList := oooList[..prev] + oooList[prev + 1..];
          assert oooList == list[..0] + list[pos..];
          next := next - 1;
        } else {
          assert list[prev].0 < first;
          start := MaxU32(first, oooList[prev].1);
        }
      }
    }

    /** The release loop of `process`: while the head range starts at the
        expected PSN, advance the PSN to its end and erase it. */
    method ReleaseInOrder() returns (released: nat)
      modifies this
      ensures (oooList, nextPsn, released) == Release(old(oooList), old(nextPsn))
    {
      released := 0;
      while |oooList| > 0 && nextPsn == oooList[0].0
        invariant Release(oooList, nextPsn).0 == Release(old(oooList), old(nextPsn)).0
        invariant Release(oooList, nextPsn).1 == Release(old(oooList), old(nextPsn)).1
        invariant released + Release(oooList, nextPsn).2 == Release(old(oooList), old(nextPsn)).2
        decreases |oooList|
      {
        nextPsn := oooList[0].1;
        oooList := oooList[1..];
        released := released + 1;
      }
    }

    /** `process`: classifies the segment; an out-of-order segment is
        clipped, merged into the list and followed by the release of the
        ranges that became in order.  The new state and the service time are
        those of `ProcessSpec`. */
    method Process(p: Packet) returns (serviceTime: real)
      requires SynCheckHolds(State(), p.tcpHeader)
      modifies this
      ensures State() == ProcessSpec(old(State()), p.tcpHeader).0
      ensures serviceTime == ProcessSpec(old(State()), p.tcpHeader).1
    {
      var h := p.tcpHeader;
      var (psn, endPsn) := SequenceNumberRange(h);
      ghost var st := State();
      if h.flagSyn || nextPsn == 0 {
        if |oooList| == 0 {
          nextPsn := endPsn;
        }
        return InvalidJobSize;
      } else if |oooList| == 0 && nextPsn >= psn {
        nextPsn := MaxU32(nextPsn, endPsn);
        return InvalidJobSize;
      } else if psn > (nextPsn + ReassemblyWindowSizeInBytes) % TwoTo32 {
        return InvalidJobSize;
      } else if nextPsn >= endPsn {
        return InvalidJobSize;
      }
      assert Classify(st, h) == OutOfOrder;
      serviceTime := MergeSegment(h);
    }

    /** The out-of-order case of `process`: the search, the clipping, the
        erasure of covered ranges, the insertion of a non-empty remainder
        and the release of the ranges that became in order. */
    method MergeSegment(h: TcpHeader) returns (serviceTime: real)
      requires Classify(State(), h) == OutOfOrder
      modifies this
      ensures var (list, inserted) := InsertSegment(old(State()), h);
        var traversals := SearchTraversals(old(oooList), h.nextPsn);
        if inserted then
          (oooList, nextPsn) == (Release(list, old(nextPsn)).0, Release(list, old(nextPsn)).1) &&
          serviceTime == ToServiceTime(traversals + Release(list, old(nextPsn)).2) as real
        else
          oooList == list && nextPsn == old(nextPsn) &&
          serviceTime == ToServiceTime(traversals) as real
    {
      ghost var st := State();
      var c, traversals := ClipSegment(h);
      if c.e1 > c.s2 {
        oooList := oooList[..c.k] + [(c.s2, c.e1)] + oooList[c.k..];
        assert oooList == st.oooList[..c.k] + [(c.s2, c.e1)] + st.oooList[c.pos..];
        assert InsertSegment(st, h) == (oooList, true);
        var released := ReleaseInOrder();
        traversals := traversals + released;
      } else {
        assert InsertSegment(st, h) == (oooList, false);
      }
      serviceTime := ToServiceTime(traversals) as real;
    }

    /** The search and the clipping of the out-of-order case, with the
        erasure of the ranges the clipped segment covers. */
    method ClipSegment(h: TcpHeader) returns (c: Clip, traversals: nat)
      requires Classify(State(), h) == OutOfOrder
      modifies this
      ensures c == ClipOf(old(State()), h)
      ensures traversals == SearchTraversals(old(oooList), h.nextPsn)
      ensures oooList == old(oooList)[..c.k] + old(oooList)[c.pos..] && nextPsn == old(nextPsn)
    {
      var (psn, endPsn) := SequenceNumberRange(h);
      var pos;
      pos, traversals := InsertionPosition(endPsn);
      var first := MaxU32(nextPsn, psn);
      var second := endPsn;
      if pos < |oooList| {
        second := MinU32(second, oooList[pos].0);
      }
      var next, start := EraseCovered(pos, first);
      c := Clip(pos, first, second, next, start);
    }
  }

  /** The first range whose end reaches `e` is unique, so any index with
      the two properties of the search result is that result. */
  lemma FirstEndAtLeastUnique(list: seq<Range>, e: U32, pos: nat)
    requires pos <= |list|
    requires forall j :: 0 <= j < pos ==> list[j].1 < e
    requires pos < |list| ==> e <= list[pos].1
    ensures pos == FirstEndAtLeast(list, e)
  {
  }

  // ---------------------------------------------------------------------
  // The application
  // ---------------------------------------------------------------------

  /** The sanity check `process` asserts, for the flow a packet would reach
      in `process_`: a missing flow starts fresh and always passes it. */
  predicate InnerSynCheck(flows: map<FlowId, FlowState>, p: Packet, update: bool) {
    var h := p.tcpHeader;
    (h.isValid && !IsFlagFinOrRst(h) && !IsPassThroughPacket(h) && update && p.flowId in flows) ==>
      SynCheckHolds(flows[p.flowId], h)
  }

  /** `process_` on the flow table, before `toJobSizeInNs`: the new table and
      the service time. */
  function ProcessInnerSpec(flows: map<FlowId, FlowState>, p: Packet, update: bool): (r: (map<FlowId, FlowState>, real))
    requires InnerSynCheck(flows, p, update)
  {
    var h := p.tcpHeader;
    var id := p.flowId;
    if !h.isValid then (flows, InvalidJobSize)
    else if IsFlagFinOrRst(h) then
      (if update then flows - {id} else flows, InvalidJobSize)
    else if IsPassThroughPacket(h) then (flows, InvalidJobSize)
    else if update then
      var st := if id in flows then flows[id] else InitialFlowState;
      var (st', serviceTime) := ProcessSpec(st, h);
      (flows[id := st'], serviceTime)
    else if id in flows then (flows, ServiceTimeEstimate(flows[id], h))
    else (flows, InvalidJobSize)
  }

  /** Every stored flow state is well formed. */
  ghost predicate FlowsWellFormed(flows: map<FlowId, FlowState>) {
    forall id :: id in flows ==> WellFormed(flows[id])
  }

  /** What `process_` promises about the flow table: an estimate never
      changes it; other flows are never touched; FIN/RST removes the flow
      only when updating; an updating TCP data packet leaves its flow in the
      table; and well-formed tables stay well formed. */
  lemma ProcessInnerTable(flows: map<FlowId, FlowState>, p: Packet, update: bool)
    requires InnerSynCheck(flows, p, update)
    ensures var t := ProcessInnerSpec(flows, p, update).0;
      (!update ==> t == flows) &&
      (forall id :: id != p.flowId ==> (id in t <==> id in flows)) &&
      (forall id :: id != p.flowId && id in t ==> t[id] == flows[id]) &&
      (p.tcpHeader.isValid && IsFlagFinOrRst(p.tcpHeader) && update ==> p.flowId !in t) &&
      ((p.tcpHeader.isValid && !IsFlagFinOrRst(p.tcpHeader) && !IsPassThroughPacket(p.tcpHeader) && update) ==>
         p.flowId in t) &&
      (!p.tcpHeader.isValid || (IsPassThroughPacket(p.tcpHeader) && !IsFlagFinOrRst(p.tcpHeader)) ==> t == flows)
  {
  }

  lemma ProcessInnerWellFormed(flows: map<FlowId, FlowState>, p: Packet, update: bool)
    requires InnerSynCheck(flows, p, update) && FlowsWellFormed(flows)
    ensures FlowsWellFormed(ProcessInnerSpec(flows, p, update).0)
  {
    var h := p.tcpHeader;
    var id := p.flowId;
    if h.isValid && !IsFlagFinOrRst(h) && !IsPassThroughPacket(h) && update {
      var st := if id in flows then flows[id] else InitialFlowState;
      ProcessSpecWellFormed(st, h);
    }
  }

  /** The service time `process_` reports is valid exactly for a TCP data
      packet of an out-of-order flow (one that is stored, when only
      estimating); every other packet gets the invalid size. */
  lemma ProcessInnerServiceTime(flows: map<FlowId, FlowState>, p: Packet, update: bool)
    requires InnerSynCheck(flows, p, update)
    ensures var h := p.tcpHeader;
      var st := if p.flowId in flows then flows[p.flowId] else InitialFlowState;
      ProcessInnerSpec(flows, p, update).1 != InvalidJobSize <==>
        h.isValid && !IsFlagFinOrRst(h) && !IsPassThroughPacket(h) &&
        (update || p.flowId in flows) && Classify(st, h) == OutOfOrder
  {
    var h := p.tcpHeader;
    var st := if p.flowId in flows then flows[p.flowId] else InitialFlowState;
    if h.isValid && !IsFlagFinOrRst(h) && !IsPassThroughPacket(h) && update {
      ProcessSpecResult(st, h);
    }
  }

  /** `TCPReassembly`: the application parameters and the flow table.  The
      table maps each flow id to a copy of its flow state, as the C++ map
      holds its `TCPFlowState` values. */
  class TcpReassembly {
    const params: Parameters
    var flows: map<FlowId, FlowState>

    /** TCP reassembly serves each flow's packets in order. */
    static const IsFlowOrderRequired: bool := true

    constructor(p: Parameters)
      ensures params == p && flows == map[]
      ensures FlowsWellFormed(flows)
    {
      params := p;
      flows := map[];
    }

    /** `process_`: FIN/RST ends the flow (when updating), pass-through and
        non-TCP packets cost nothing, a data packet is processed by its flow
        (created on first sight when updating) or only estimated. */
    method ProcessInner(p: Packet, update: bool) returns (jobSize: real)
      requires InnerSynCheck(flows, p, update)
      modifies this
      ensures flows == ProcessInnerSpec(old(flows), p, update).0
      ensures jobSize == ToJobSizeInNs(params, ProcessInnerSpec(old(flows), p, update).1)
    {
      var serviceTime := InvalidJobSize;
      var h := p.tcpHeader;
      if h.isValid {
        if IsFlagFinOrRst(h) {
          if update && p.flowId in flows {
            flows := flows - {p.flowId};
          }
        } else if !IsPassThroughPacket(h) {
          var id := p.flowId;
          if update {
            if id !in flows {
              flows := flows[id := InitialFlowState];
            }
            var flow := new TcpFlowState.Copy(flows[id]);
            serviceTime := flow.Process(p);
            flows := flows[id := flow.State()];
          } else if id in flows {
            serviceTime := ServiceTimeEstimate(flows[id], h);
          }
        }
      }
      jobSize := ToJobSizeInNs(params, serviceTime);
    }

    /** `process`: an attack packet yields its encoded actual size (which
        must be set); otherwise the packet is processed here when the
        heuristic is on, and its estimate stands when it is off (processing
        then happened at estimation time). */
    method Process(p: Packet) returns (jobSize: real)
      requires p.cls == Attack ==> p.jobSizeActual >= 0.0
      requires p.cls != Attack && params.useHeuristic ==> InnerSynCheck(flows, p, true)
      modifies this
      ensures p.cls == Attack ==> jobSize == p.jobSizeActual && flows == old(flows)
      ensures p.cls != Attack && !params.useHeuristic ==> jobSize == p.jobSizeEstimate && flows == old(flows)
      ensures p.cls != Attack && params.useHeuristic ==>
        flows == ProcessInnerSpec(old(flows), p, true).0 &&
        jobSize == ToJobSizeInNs(params, ProcessInnerSpec(old(flows), p, true).1)
    {
      if p.cls == Attack {
        jobSize := p.jobSizeActual;
      } else if params.useHeuristic {
        jobSize := ProcessInner(p, true);
      } else {
        jobSize := p.jobSizeEstimate;
      }
    }

    /** `getJobSizeEstimate`: an attack packet yields its encoded estimate
        (which must be set); an innocent packet must not carry one yet, and
        is processed for real when the heuristic is off, or only estimated
        when it is on. */
    method GetJobSizeEstimate(p: Packet) returns (jobSize: real)
      requires p.cls == Attack ==> p.jobSizeEstimate >= 0.0
      requires p.cls != Attack ==> p.jobSizeEstimate == InvalidJobSize
      requires p.cls != Attack ==> InnerSynCheck(flows, p, !params.useHeuristic)
      modifies this
      ensures p.cls == Attack ==> jobSize == p.jobSizeEstimate && flows == old(flows)
      ensures p.cls != Attack ==>
        flows == ProcessInnerSpec(old(flows), p, !params.useHeuristic).0 &&
        jobSize == ToJobSizeInNs(params, ProcessInnerSpec(old(flows), p, !params.useHeuristic).1)
    {
      if p.cls == Attack {
        jobSize := p.jobSizeEstimate;
      } else {
        jobSize := ProcessInner(p, !params.useHeuristic);
      }
    }
  }
}
