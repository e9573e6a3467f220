/** The SJF-Inorder analyzer (simulator/scripts/adversary/analyze_sjf_inorder.py):
    under SJF-Inorder a flow's packets are served in arrival order and flows
    are ranked by their average job size, so the analyzer works on whole
    flows.  It keeps each flow's metrics, the flows sorted by average job
    size and, per truncated average, the cumulative expected job size. */
module AnalyzeSjfInorder {
  import opened Wrappers
  import opened Numeric
  import opened AnalyzeCommon
  import opened AnalyzeScan
  import opened FlowProfile
  import AnalyzeSjf

  /** `get_average_jsize`.  Every flow in the dict has a packet, so the
      division by zero of an empty flow never happens; 0 stands in for it. */
  function AverageJsize(f: FlowMetrics): (a: real)
    ensures f.numPackets > 0 ==> a * f.numPackets as real == f.totalJsize
  {
    if f.numPackets == 0 then 0.0
    else
      QuotientTimes(f.totalJsize, f.numPackets as real);
      f.totalJsize / f.numPackets as real
  }

  /** The key of `jsize_expectations`: `int(flow.get_average_jsize())`. */
  function TruncAverage(f: FlowMetrics): int { Trunc(AverageJsize(f)) }

  /** Flows sorted by average job size have ascending truncated averages. */
  lemma TruncAveragesAscending(flows: seq<FlowMetrics>)
    requires SortedBy(flows, AverageJsize)
    ensures KeysAscending(flows, TruncAverage)
  {
    forall i, j | 0 <= i < j < |flows|
      ensures TruncAverage(flows[i]) <= TruncAverage(flows[j])
    {
      TruncMonotone(AverageJsize(flows[i]), AverageJsize(flows[j]));
    }
  }

  /** The body of `_compute_expectation` on the dict's values: the flows
      sorted by average job size, and the expectations `d` updated with
      their running profile keyed by truncated average. */
  method SortedShares(flows: seq<FlowMetrics>, n: nat, d: map<int, real>)
    returns (sorted: seq<FlowMetrics>, r: Result<map<int, real>>)
    ensures multiset(sorted) == multiset(flows) && SortedBy(sorted, AverageJsize)
    ensures r.Failure? <==> n == 0 && |flows| > 0
    ensures r.Failure? ==> r.error == ZeroDivision
    ensures r.Success? ==> Recorded(d, r.value, sorted, TruncAverage, FlowJsize, n as real)
  {
    sorted := SortBy(flows, AverageJsize);
    assert |sorted| == |multiset(sorted)| == |flows|;
    TruncAveragesAscending(sorted);
    r := RecordShares(sorted, TruncAverage, FlowJsize, n, d);
  }

  class SjfInorderAnalyzer {
    const base: BaseAnalyzer
    /** The keys of `self.flow_metrics_map` in insertion order, the order in
        which the dict yields its values. */
    var flowIds: seq<string>
    /** `self.flow_metrics_map`: flow id -> `FlowMetrics`. */
    var flowMetricsMap: map<string, FlowMetrics>
    /** `self.flows_sorted`: the flows sorted by average job size. */
    var flowsSorted: seq<FlowMetrics>
    /** `self.jsize_expectations`: truncated average job size -> cumulative
        expectation. */
    var jsizeExpectations: map<int, real>
    /** The packets the hook has seen, in order. */
    ghost var packets: seq<LogPacket>

    /** The dict holds the flows of the packets seen so far. */
    ghost predicate Valid()
      reads this`flowIds, this`flowMetricsMap, this`packets
    {
      Profiles(flowIds, flowMetricsMap, packets)
    }

    constructor(base: BaseAnalyzer)
      ensures this.base == base && Valid() && packets == []
      ensures flowIds == [] && flowMetricsMap == map[] && flowsSorted == [] && jsizeExpectations == map[]
    {
      this.base := base;
      flowIds := [];
      flowMetricsMap := map[];
      flowsSorted := [];
      jsizeExpectations := map[];
      packets := [];
      ProfilesEmpty();
    }

    /** `_analyze_log_packet`: add the packet to its flow, creating the flow
        on its first packet, so that the dict keeps profiling the packets. */
    method AnalyzePacket(p: LogPacket)
      requires Valid()
      modifies this`flowIds, this`flowMetricsMap, this`packets
      ensures Valid() && packets == old(packets) + [p]
      ensures flowIds == InsertKey(old(flowIds), old(flowMetricsMap), p.flowId)
      ensures flowMetricsMap == Hook(old(flowMetricsMap), p)
    {
      var ids, m := flowIds, flowMetricsMap;
      RecordStep(ids, m, packets, p);
      if p.flowId !in m {
        flowIds := ids + [p.flowId];
      }
      flowMetricsMap := m[p.flowId := AddPacket(Lookup(m, p.flowId), p.metrics.psize, p.metrics.jsize)];
      packets := packets + [p];
    }

    /** The hook on each packet of a log, in order. */
    method AnalyzePackets(ps: seq<LogPacket>)
      requires Valid()
      modifies this`flowIds, this`flowMetricsMap, this`packets
      ensures Valid() && packets == old(packets) + ps
    {
      ghost var seen := packets;
      for i := 0 to |ps|
        invariant Valid() && packets == seen + ps[..i]
      {
        PrefixStep(seen, ps, i);
        AnalyzePacket(ps[i]);
      }
      assert ps[..|ps|] == ps;
    }

    /** `_compute_expectation`: sort the flows by average job size, then walk
        them adding each flow's share `total_jsize / N` to a running value
        recorded under the flow's truncated average.  Each recorded value is
        `1 / N` of the job sizes of the flows whose truncated average is at
        most the key. */
    method ComputeExpectation() returns (r: Result<()>)
      requires Valid()
      modifies this`flowsSorted, this`jsizeExpectations
      ensures multiset(flowsSorted) == multiset(Values(flowIds, flowMetricsMap))
      ensures SortedBy(flowsSorted, AverageJsize)
      ensures r.Failure? <==> base.numTotalPackets == 0 && |flowIds| > 0
      ensures r.Failure? ==> r.error == ZeroDivision && jsizeExpectations == old(jsizeExpectations)
      ensures r.Success? ==> Recorded(old(jsizeExpectations), jsizeExpectations, flowsSorted, TruncAverage, FlowJsize,
                                          base.numTotalPackets as real)
    {
      var n := base.numTotalPackets;
      var flows := Values(flowIds, flowMetricsMap);
      var sorted, e := SortedShares(flows, n, jsizeExpectations);
      flowsSorted := sorted;
      if e.Failure? {
        return Failure(e.error);
      }
      jsizeExpectations := e.value;
      return Success(());
    }

    /** `get_optimal_strategy`: the scan picks the job size, the flows whose
        average is no larger than it are scheduled, and the goodput is their
        share of the innocent bits. */
    method GetOptimalStrategy(rI: real, rA: real) returns (r: Result<AttackStrategy>)
      requires SortedBy(flowsSorted, AverageJsize)
      ensures |jsizeExpectations| > 0 && base.averageInnocentPsize == 0 ==> r == Failure(ZeroDivision)
      ensures base.numTotalPackets * base.averageInnocentPsize == 0 ==> r == Failure(ZeroDivision)
      ensures base.numTotalPackets * base.averageInnocentPsize != 0 ==> r.Success?
      ensures r.Success? ==>
                var opt := r.value.estimatedJsize;
                && base.averageInnocentPsize != 0
                && KeyOptimum(jsizeExpectations, rI, rA, base.averageInnocentPsize,
                              base.maximumInnocentJsize, opt)
                && r.value.actualJsize == opt && r.value.psize == MinPacketSize
                && Goodput(rI, FilterSum(flowsSorted, AverageJsize, FlowPsize, opt), base.Stats())
                   == Success(r.value.expectedGoodput)
                && r.value.alpha == Alpha(rI, rA, base.rMax, r.value.expectedGoodput)
    {
      var ks := SortedKeys(jsizeExpectations);
      var opt :- KeyScan(ks, jsizeExpectations, rI, rA, base.averageInnocentPsize, base.maximumInnocentJsize);
      var scheduled := ScheduledSize(flowsSorted, AverageJsize, FlowPsize, opt);
      var g :- Goodput(rI, scheduled, base.Stats());
      return Success(AttackStrategy(opt, opt, MinPacketSize, g, Alpha(rI, rA, base.rMax, g)));
    }
  }

  /** The policy's part of `SJFInorderAnalyzer(config, log)` once the base
      analyzer has read a non-empty log: the hook on every packet in file
      order, then the expectations. */
  method Populate(base: BaseAnalyzer, ps: seq<LogPacket>) returns (a: SjfInorderAnalyzer)
    requires base.numTotalPackets == |ps| > 0
    ensures fresh(a) && a.base == base && a.Valid() && a.packets == ps
    ensures multiset(a.flowsSorted) == multiset(Values(a.flowIds, a.flowMetricsMap))
    ensures SortedBy(a.flowsSorted, AverageJsize)
    ensures Recorded(map[], a.jsizeExpectations, a.flowsSorted, TruncAverage, FlowJsize, |ps| as real)
  {
    a := Collect(base, ps);
    var c := a.ComputeExpectation();
  }

  /** A new analyzer after the hook has seen every packet of `ps`. */
  method Collect(base: BaseAnalyzer, ps: seq<LogPacket>) returns (a: SjfInorderAnalyzer)
    ensures fresh(a) && a.base == base && a.Valid() && a.packets == ps
    ensures a.flowsSorted == [] && a.jsizeExpectations == map[]
  {
    a := new SjfInorderAnalyzer(base);
    a.AnalyzePackets(ps);
  }

  /** `SJFInorderAnalyzer(config, log)`: analyse the log with the hook on
      every packet in file order, read the configuration, then compute the
      expectations. */
  method NewSjfInorderAnalyzer(lines: seq<string>, config: map<string, map<string, real>>)
    returns (r: Result<SjfInorderAnalyzer>)
    ensures r.Success? <==> ParseLog(lines).Success? && Summarize(ParseLog(lines).value).Success? &&
                            HasAttackJsize(config)
    ensures r.Success? ==>
              var a := r.value;
              var ps := ParseLog(lines).value;
              && fresh(a) && fresh(a.base)
              && a.base.Analysed() && a.base.packets == ps && a.base.numTotalPackets == |ps|
              && a.base.maximumAttackJsize == config["application"]["max_attack_job_size_ns"]
              && a.Valid() && a.packets == ps
              && multiset(a.flowsSorted) == multiset(Values(a.flowIds, a.flowMetricsMap))
              && SortedBy(a.flowsSorted, AverageJsize)
              && Recorded(map[], a.jsizeExpectations, a.flowsSorted, TruncAverage, FlowJsize, |ps| as real)
  {
    var base, packets := Load(lines, config);
    if packets.Failure? {
      return Failure(packets.error);
    }
    var a := Populate(base, packets.value);
    return Success(a);
  }

  // ---------------------------------------------------------------------
  // What the expectations and the strategy mean
  // ---------------------------------------------------------------------

  /** With non-negative job sizes the expectations grow with the key, so a
      larger key saturates whenever a smaller one does: the optimum is a
      threshold. */
  lemma SaturationPersists(before: map<int, real>, e: map<int, real>, flows: seq<FlowMetrics>, n: nat,
                           k1: int, k2: int, rI: real, rA: real, avgP: int)
    requires Recorded(before, e, flows, TruncAverage, FlowJsize, n as real)
    requires k1 in KeySet(flows, TruncAverage) && k2 in KeySet(flows, TruncAverage)
    requires n > 0 && avgP > 0 && rI >= 0.0 && rA >= 0.0 && k1 <= k2
    requires forall i :: 0 <= i < |flows| ==> FlowJsize(flows[i]) >= 0.0
    ensures KeySaturates(k1, e, rI, rA, avgP) ==> KeySaturates(k2, e, rI, rA, avgP)
  {
    RecordedMonotone(before, e, flows, TruncAverage, FlowJsize, n as real, k1, k2);
    AnalyzeSjf.KeyWorkMonotone(rA, k1, k2);
    AnalyzeSjf.SaturatesMonotone(rI, avgP, e[k1], e[k2], KeyWork(rA, k1), KeyWork(rA, k2));
  }

  /** When the optimum is no smaller than every flow's average, every flow is
      scheduled and the expected goodput is at least `r_I`. */
  lemma AllScheduledGoodput(rI: real, ids: seq<string>, m: map<string, FlowMetrics>, ps: seq<LogPacket>,
                            flows: seq<FlowMetrics>, opt: real)
    requires Profiles(ids, m, ps) && multiset(flows) == multiset(Values(ids, m))
    requires forall i :: 0 <= i < |flows| ==> AverageJsize(flows[i]) <= opt
    requires rI >= 0.0 && Summarize(ps).Success? && PsizeSum(ps) >= 0
    requires Goodput(rI, FilterSum(flows, AverageJsize, FlowPsize, opt), Summarize(ps).value).Success?
    ensures Goodput(rI, FilterSum(flows, AverageJsize, FlowPsize, opt), Summarize(ps).value).value >= rI
  {
    FilterSumAll(flows, AverageJsize, FlowPsize, opt);
    ProfileConserves(ids, m, ps, flows);
    GoodputWhenAllScheduled(rI, ps);
  }
}
