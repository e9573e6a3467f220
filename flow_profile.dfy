/** The flow-level bookkeeping of the in-order analyzers
    (simulator/scripts/adversary/analyze_sjf_inorder.py and
    analyze_wsjf_inorder.py): a `FlowMetrics` per flow id in a
    `defaultdict`, filled by the packet hook.  Under the in-order policies a
    flow's packets are served in arrival order, so the analyzers rank whole
    flows by their averages instead of single packets. */
module FlowProfile {
  import opened Wrappers
  import opened AnalyzeCommon
  import opened AnalyzeScan

  /** `FlowMetrics`: how many packets a flow has and the totals of their
      packet and job sizes. */
  datatype FlowMetrics = FlowMetrics(numPackets: nat, totalPsize: int, totalJsize: real)

  /** The `FlowMetrics()` a `defaultdict` creates on first access. */
  const NewFlow := FlowMetrics(0, 0, 0.0)

  /** `add_packet`: count the packet and add its sizes to the totals. */
  function AddPacket(f: FlowMetrics, psize: int, jsize: real): FlowMetrics {
    FlowMetrics(f.numPackets + 1, f.totalPsize + psize, f.totalJsize + jsize)
  }

  /** The totals the scans add up. */
  function FlowPsize(f: FlowMetrics): int { f.totalPsize }
  function FlowJsize(f: FlowMetrics): real { f.totalJsize }

  /** `flow_metrics_map[id]` on a `defaultdict(FlowMetrics)`. */
  function Lookup(m: map<string, FlowMetrics>, id: string): FlowMetrics {
    if id in m then m[id] else NewFlow
  }

  /** What the metrics of flow `id` are meant to be after a log: its
      packets, added in file order. */
  function FlowTotals(ps: seq<LogPacket>, id: string): FlowMetrics {
    if ps == [] then NewFlow
    else
      var f := FlowTotals(ps[..|ps| - 1], id);
      var p := ps[|ps| - 1];
      if p.flowId == id then AddPacket(f, p.metrics.psize, p.metrics.jsize) else f
  }

  /** A flow of the log has at least one packet; any other id has none. */
  lemma {:induction false} FlowTotalsCount(ps: seq<LogPacket>, id: string)
    ensures FlowTotals(ps, id).numPackets > 0 <==> id in FlowIds(ps)
  {
    if ps != [] {
      var init := ps[..|ps| - 1];
      FlowTotalsCount(init, id);
      if id in FlowIds(init) {
        var i :| 0 <= i < |init| && init[i].flowId == id;
        assert ps[i].flowId == id;
      }
      if id in FlowIds(ps) && ps[|ps| - 1].flowId != id {
        var i :| 0 <= i < |ps| && ps[i].flowId == id;
        assert init[i].flowId == id;
      }
    }
  }

  predicate Distinct(ids: seq<string>) {
    forall i, j :: 0 <= i < j < |ids| ==> ids[i] != ids[j]
  }

  /** The dict's state after the hook has seen `ps`: its keys, in insertion
      order `ids`, are the flows of the log, each once, and each flow's
      metrics are its totals. */
  ghost predicate Profiles(ids: seq<string>, m: map<string, FlowMetrics>, ps: seq<LogPacket>) {
    && Distinct(ids)
    && (forall id :: id in m <==> id in ids)
    && m.Keys == FlowIds(ps)
    && (forall id :: id in m ==> m[id] == FlowTotals(ps, id))
  }

  /** An empty dict profiles an empty log. */
  lemma ProfilesEmpty()
    ensures Profiles([], map[], [])
  {
  }

  /** The key order after the hook on a packet of flow `id`: a new flow id
      goes at the end, as a dict keeps insertion order. */
  function InsertKey(ids: seq<string>, m: map<string, FlowMetrics>, id: string): seq<string> {
    if id in m then ids else ids + [id]
  }

  /** The dict after the hook on `p`: the packet's flow, created on its first
      packet, gets the packet's sizes. */
  function Hook(m: map<string, FlowMetrics>, p: LogPacket): map<string, FlowMetrics> {
    m[p.flowId := AddPacket(Lookup(m, p.flowId), p.metrics.psize, p.metrics.jsize)]
  }

  /** The hook on one more packet keeps the dict profiling the log. */
  lemma RecordStep(ids: seq<string>, m: map<string, FlowMetrics>, ps: seq<LogPacket>, p: LogPacket)
    requires Profiles(ids, m, ps)
    ensures Profiles(InsertKey(ids, m, p.flowId), Hook(m, p), ps + [p])
  {
    var ids' := InsertKey(ids, m, p.flowId);
    var m' := Hook(m, p);
    RecordKeys(ids, m, ids', m', p.flowId);
    RecordFlows(m, ps, p, m');
    RecordTotals(m, ps, p, m');
  }

  /** The key order after the hook: still each key once. */
  lemma RecordKeys<V>(ids: seq<string>, m: map<string, V>, ids': seq<string>, m': map<string, V>, id: string)
    requires Distinct(ids) && (forall k :: k in m <==> k in ids)
    requires ids' == (if id in m then ids else ids + [id]) && m'.Keys == m.Keys + {id}
    ensures Distinct(ids') && (forall k :: k in m' <==> k in ids')
  {
  }

  /** The keys after the hook are the flows of the longer log. */
  lemma RecordFlows<V>(m: map<string, V>, ps: seq<LogPacket>, p: LogPacket, m': map<string, V>)
    requires m.Keys == FlowIds(ps) && m'.Keys == m.Keys + {p.flowId}
    ensures m'.Keys == FlowIds(ps + [p])
  {
    var ps' := ps + [p];
    forall id | id in FlowIds(ps')
      ensures id in m'
    {
      var i :| 0 <= i < |ps'| && ps'[i].flowId == id;
      if i < |ps| {
        assert ps[i].flowId == id;
      }
    }
    forall id | id in m'
      ensures id in FlowIds(ps')
    {
      if id != p.flowId {
        var i :| 0 <= i < |ps| && ps[i].flowId == id;
        assert ps'[i].flowId == id;
      } else {
        assert ps'[|ps|].flowId == id;
      }
    }
  }

  /** The metrics after the hook are the totals over the longer log. */
  lemma RecordTotals(m: map<string, FlowMetrics>, ps: seq<LogPacket>, p: LogPacket, m': map<string, FlowMetrics>)
    requires m.Keys == FlowIds(ps) && (forall id :: id in m ==> m[id] == FlowTotals(ps, id))
    requires m' == Hook(m, p)
    ensures forall id :: id in m' ==> m'[id] == FlowTotals(ps + [p], id)
  {
    var ps' := ps + [p];
    assert ps'[..|ps'| - 1] == ps;
    if p.flowId !in m {
      FlowTotalsAbsent(ps, p.flowId);
    }
  }

  /** A flow with no packet in the log has the metrics of a new flow. */
  lemma {:induction false} FlowTotalsAbsent(ps: seq<LogPacket>, id: string)
    requires id !in FlowIds(ps)
    ensures FlowTotals(ps, id) == NewFlow
  {
    if ps != [] {
      var init := ps[..|ps| - 1];
      assert forall i :: 0 <= i < |init| ==> init[i] == ps[i];
      FlowTotalsAbsent(init, id);
    }
  }

  /** The dict's values in key order: `flow_metrics_map.values()`. */
  function Values(ids: seq<string>, m: map<string, FlowMetrics>): (vs: seq<FlowMetrics>)
    requires forall id :: id in ids ==> id in m
    ensures |vs| == |ids| && forall i :: 0 <= i < |ids| ==> vs[i] == m[ids[i]]
  {
    seq(|ids|, i requires 0 <= i < |ids| => m[ids[i]])
  }

  /** The totals of the flows `ids` over `ps`, in that order. */
  function TotalsOf(ps: seq<LogPacket>, ids: seq<string>): (fs: seq<FlowMetrics>)
    ensures |fs| == |ids| && forall i :: 0 <= i < |ids| ==> fs[i] == FlowTotals(ps, ids[i])
  {
    seq(|ids|, i requires 0 <= i < |ids| => FlowTotals(ps, ids[i]))
  }

  /** The values of a profiling dict are the flows' totals. */
  lemma ValuesAreTotals(ids: seq<string>, m: map<string, FlowMetrics>, ps: seq<LogPacket>)
    requires Profiles(ids, m, ps)
    ensures Values(ids, m) == TotalsOf(ps, ids)
  {
  }

  /** Splitting the log into flows loses nothing: over distinct ids that
      cover every flow of the log, the flows' packet sizes add up to the
      log's, and so do their job sizes. */
  lemma {:induction false} FlowsConserve(ps: seq<LogPacket>, ids: seq<string>)
    requires Distinct(ids) && forall id :: id in FlowIds(ps) ==> id in ids
    ensures TotalSize(TotalsOf(ps, ids), FlowPsize) == PsizeSum(ps)
    ensures RealTotal(TotalsOf(ps, ids), FlowJsize) == JsizeSum(ps)
    decreases |ps|
  {
    if ps == [] {
      NoFlowsNoTotals(ids);
    } else {
      var init := ps[..|ps| - 1];
      var p := ps[|ps| - 1];
      forall id | id in FlowIds(init)
        ensures id in ids
      {
        var i :| 0 <= i < |init| && init[i].flowId == id;
        assert ps[i].flowId == id;
      }
      FlowsConserve(init, ids);
      assert p.flowId in FlowIds(ps);
      var j :| 0 <= j < |ids| && ids[j] == p.flowId;
      var before := TotalsOf(init, ids);
      var after := TotalsOf(ps, ids);
      forall i | 0 <= i < |ids|
        ensures after[i] == if i == j then AddPacket(before[i], p.metrics.psize, p.metrics.jsize) else before[i]
      {
      }
      TotalSizeBump(before, after, FlowPsize, j, p.metrics.psize);
      RealTotalBump(before, after, FlowJsize, j, p.metrics.jsize);
    }
  }

  /** Before any packet every total is 0. */
  lemma {:induction false} NoFlowsNoTotals(ids: seq<string>)
    ensures TotalSize(TotalsOf([], ids), FlowPsize) == 0
    ensures RealTotal(TotalsOf([], ids), FlowJsize) == 0.0
    decreases |ids|
  {
    if ids != [] {
      var init := ids[..|ids| - 1];
      assert TotalsOf([], ids)[..|ids| - 1] == TotalsOf([], init);
      NoFlowsNoTotals(init);
    }
  }

  /** The flows of a profiling dict, in any order, add up to the log. */
  lemma ProfileConserves(ids: seq<string>, m: map<string, FlowMetrics>, ps: seq<LogPacket>, flows: seq<FlowMetrics>)
    requires Profiles(ids, m, ps) && multiset(flows) == multiset(Values(ids, m))
    ensures TotalSize(flows, FlowPsize) == PsizeSum(ps)
    ensures RealTotal(flows, FlowJsize) == JsizeSum(ps)
  {
    ValuesAreTotals(ids, m, ps);
    FlowsConserve(ps, ids);
    TotalSizePermutation(flows, Values(ids, m), FlowPsize);
    RealTotalPermutation(flows, Values(ids, m), FlowJsize);
  }

  /** Every flow of a profiling dict has a packet. */
  lemma ProfileFlowsNonEmpty(ids: seq<string>, m: map<string, FlowMetrics>, ps: seq<LogPacket>)
    requires Profiles(ids, m, ps)
    ensures forall i :: 0 <= i < |ids| ==> Values(ids, m)[i].numPackets > 0
  {
    forall i | 0 <= i < |ids|
      ensures Values(ids, m)[i].numPackets > 0
    {
      FlowTotalsCount(ps, ids[i]);
    }
  }

  /** Sorting the dict's flows loses none of them: at a key no flow
      exceeds, a recorded profile of their job sizes over `N`, the number
      of packets, is the mean job size of the whole log. */
  lemma RecordedAverage(ids: seq<string>, m: map<string, FlowMetrics>, ps: seq<LogPacket>,
                        flows: seq<FlowMetrics>, key: FlowMetrics -> int,
                        before: map<int, real>, e: map<int, real>, n: real, t: int)
    requires Profiles(ids, m, ps) && multiset(flows) == multiset(Values(ids, m))
    requires n == |ps| as real
    requires Recorded(before, e, flows, key, FlowJsize, n) && t in KeySet(flows, key)
    requires forall i :: 0 <= i < |flows| ==> key(flows[i]) <= t
    ensures e[t] * n == JsizeSum(ps)
  {
    RecordedAtLargest(before, e, flows, key, FlowJsize, n, t);
    ProfileConserves(ids, m, ps, flows);
  }

  /** One more packet of a log appended to what was seen before it. */
  lemma PrefixStep(seen: seq<LogPacket>, ps: seq<LogPacket>, i: nat)
    requires i < |ps|
    ensures seen + ps[..i + 1] == (seen + ps[..i]) + [ps[i]]
  {
    assert ps[..i + 1] == ps[..i] + [ps[i]];
  }
}
