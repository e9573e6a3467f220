/** The WSJF-Inorder analyzer (simulator/scripts/adversary/analyze_wsjf_inorder.py):
    under WSJF-Inorder a flow's packets are served in arrival order and flows
    are ranked by their average z-ratio, total job size over total packet
    size, so the analyzer works on whole flows.  It keeps each flow's
    metrics, the flows sorted by average z-ratio and the dense array of
    cumulative expected job sizes per scaled ratio that the WSJF analyzer
    uses. */
module AnalyzeWsjfInorder {
  import opened Wrappers
  import opened AnalyzeCommon
  import opened AnalyzeScan
  import opened FlowProfile
  import opened AnalyzeWsjf

  /** `get_average_z_ratio`.  A flow whose packet sizes add up to 0 makes
      the division raise; `RatiosDefined` tells the callers, and 0 stands in
      for the missing value. */
  function AverageZ(f: FlowMetrics): (z: real)
    ensures f.totalPsize != 0 ==> z * f.totalPsize as real == f.totalJsize
  {
    if f.totalPsize == 0 then 0.0
    else
      QuotientTimes(f.totalJsize, f.totalPsize as real);
      f.totalJsize / f.totalPsize as real
  }

  /** Every flow's average z-ratio can be computed. */
  predicate RatiosDefined(flows: seq<FlowMetrics>) {
    forall i :: 0 <= i < |flows| ==> flows[i].totalPsize != 0
  }

  /** The key evaluation of `sorted(..., key=get_average_z_ratio)`: Python
      computes the key of every element before sorting, so any flow with a
      packet-size total of 0 raises ZeroDivisionError. */
  method EvaluateKeys(flows: seq<FlowMetrics>) returns (r: Result<()>)
    ensures r.Success? <==> RatiosDefined(flows)
    ensures r.Failure? ==> r.error == ZeroDivision
  {
    for i := 0 to |flows|
      invariant forall j :: 0 <= j < i ==> flows[j].totalPsize != 0
    {
      if flows[i].totalPsize == 0 {
        return Failure(ZeroDivision);
      }
    }
    return Success(());
  }

  class WsjfInorderAnalyzer {
    const base: BaseAnalyzer
    /** The keys of `self.flow_metrics_map` in insertion order, the order in
        which the dict yields its values. */
    var flowIds: seq<string>
    /** `self.flow_metrics_map`: flow id -> `FlowMetrics`. */
    var flowMetricsMap: map<string, FlowMetrics>
    /** `self.flows_sorted`: the flows sorted by average z-ratio. */
    var flowsSorted: seq<FlowMetrics>
    /** `self.zs_expectation_jsizes`: slot -> cumulative expectation.  It is
        `None` until the expectations are computed; an empty array stands
        for that here. */
    var zsExpectationJsizes: array<real>
    /** The packets the hook has seen, in order. */
    ghost var packets: seq<LogPacket>

    /** The dict holds the flows of the packets seen so far. */
    ghost predicate Valid()
      reads this`flowIds, this`flowMetricsMap, this`packets
    {
      Profiles(flowIds, flowMetricsMap, packets)
    }

    constructor(base: BaseAnalyzer)
      ensures this.base == base && Valid() && packets == []
      ensures flowIds == [] && flowMetricsMap == map[] && flowsSorted == []
      ensures zsExpectationJsizes.Length == 0
    {
      this.base := base;
      flowIds := [];
      flowMetricsMap := map[];
      flowsSorted := [];
      zsExpectationJsizes := new real[0];
      packets := [];
      ProfilesEmpty();
    }

    /** `_analyze_log_packet`: add the packet to its flow, creating the flow
        on its first packet, so that the dict keeps profiling the packets. */
    method AnalyzePacket(p: LogPacket)
      requires Valid()
      modifies this`flowIds, this`flowMetricsMap, this`packets
      ensures Valid() && packets == old(packets) + [p]
      ensures flowIds == InsertKey(old(flowIds), old(flowMetricsMap), p.flowId)
      ensures flowMetricsMap == Hook(old(flowMetricsMap), p)
    {
      var ids, m := flowIds, flowMetricsMap;
      RecordStep(ids, m, packets, p);
      if p.flowId !in m {
        flowIds := ids + [p.flowId];
      }
      flowMetricsMap := m[p.flowId := AddPacket(Lookup(m, p.flowId), p.metrics.psize, p.metrics.jsize)];
      packets := packets + [p];
    }

    /** The hook on each packet of a log, in order. */
    method AnalyzePackets(ps: seq<LogPacket>)
      requires Valid()
      modifies this`flowIds, this`flowMetricsMap, this`packets
      ensures Valid() && packets == old(packets) + ps
    {
      ghost var seen := packets;
      for i := 0 to |ps|
        invariant Valid() && packets == seen + ps[..i]
      {
        PrefixStep(seen, ps, i);
        AnalyzePacket(ps[i]);
      }
      assert ps[..|ps|] == ps;
    }

    /** `_compute_expectation`: sort the flows by average z-ratio (a
        ZeroDivisionError if a flow's packet sizes add up to 0), allocate
        `np.zeros(round(4096 * max_z) + 1)` (an IndexError without flows, a
        ValueError for a negative length), then fill the slots with the
        running share `total_jsize / N` of the flows. */
    method ComputeExpectation() returns (r: Result<()>)
      requires Valid()
      modifies this`flowsSorted, this`zsExpectationJsizes
      ensures !RatiosDefined(Values(flowIds, flowMetricsMap)) ==>
                && r == Failure(ZeroDivision)
                && flowsSorted == old(flowsSorted) && zsExpectationJsizes == old(zsExpectationJsizes)
      ensures RatiosDefined(Values(flowIds, flowMetricsMap)) ==>
                && multiset(flowsSorted) == multiset(Values(flowIds, flowMetricsMap))
                && SortedBy(flowsSorted, AverageZ) && RatiosDefined(flowsSorted)
      ensures RatiosDefined(Values(flowIds, flowMetricsMap)) && flowIds == [] ==>
                r == Failure(IndexOutOfRange) && zsExpectationJsizes == old(zsExpectationJsizes)
      ensures RatiosDefined(Values(flowIds, flowMetricsMap)) && flowIds != [] ==>
                |flowsSorted| == |flowIds|
      ensures RatiosDefined(Values(flowIds, flowMetricsMap)) && flowIds != [] &&
              TopSlot(flowsSorted, AverageZ) < -1 ==>
                r == Failure(ValueInvalid) && zsExpectationJsizes == old(zsExpectationJsizes)
      ensures RatiosDefined(Values(flowIds, flowMetricsMap)) && flowIds != [] &&
              TopSlot(flowsSorted, AverageZ) >= -1 ==>
                && fresh(zsExpectationJsizes)
                && zsExpectationJsizes.Length == TopSlot(flowsSorted, AverageZ) + 1
                && (r.Success? <==> base.numTotalPackets != 0 &&
                                    ZSlot(AverageZ(flowsSorted[0])) >= -zsExpectationJsizes.Length)
                && (r.Failure? ==> r.error == if base.numTotalPackets == 0 then ZeroDivision else IndexOutOfRange)
      ensures r.Success? ==> RatiosDefined(flowsSorted) && flowsSorted != []
      ensures r.Success? && ZSlot(AverageZ(flowsSorted[0])) >= 0 ==>
                SlotProfile(flowsSorted, SlotKey(AverageZ), FlowJsize, base.numTotalPackets as real,
                            Zeros(zsExpectationJsizes.Length), zsExpectationJsizes[..])
    {
      var flows := Values(flowIds, flowMetricsMap);
      var keys := EvaluateKeys(flows);
      if keys.Failure? {
        return Failure(keys.error);
      }
      var sorted := SortBy(flows, AverageZ);
      SortedRatiosDefined(flows, sorted);
      flowsSorted := sorted;
      if |sorted| == 0 {
        return Failure(IndexOutOfRange);
      }
      var top := ZSlot(AverageZ(sorted[|sorted| - 1]));
      if top + 1 < 0 {
        return Failure(ValueInvalid);
      }
      var slots := new real[top + 1](_ => 0.0);
      assert slots[..] == Zeros(top + 1);
      zsExpectationJsizes := slots;
      r := FillSlots(sorted, AverageZ, FlowJsize, base.numTotalPackets, slots);
    }

    /** `get_optimal_strategy`: the scan over the slots picks the ratio, the
        flows with average z-ratios up to it are scheduled, and the ratio is
        encoded as a job size in a packet of 8192 to 12144 bits.  The flows
        are those `_compute_expectation` sorted, so every average exists. */
    method GetOptimalStrategy(rI: real, rA: real, limit: real -> Fraction) returns (r: Result<AttackStrategy>)
      requires SortedBy(flowsSorted, AverageZ) && RatiosDefined(flowsSorted)
      requires LimitsDenominator(limit, MaxPacketSize)
      ensures r.Failure? <==> base.numTotalPackets * base.averageInnocentPsize == 0
      ensures r.Failure? ==> r.error == ZeroDivision
      ensures r.Success? ==> exists opt :: ChosenStrategy(zsExpectationJsizes[..], flowsSorted, AverageZ, FlowPsize,
                                                         base.Stats(), rI, rA, limit, opt, r.value)
      ensures r.Success? ==> OptimalAdvPsize <= r.value.psize <= MaxPacketSize
    {
      ghost var opt;
      r, opt := SlotStrategy(zsExpectationJsizes, flowsSorted, AverageZ, FlowPsize, base.Stats(), rI, rA, limit);
      if r.Success? {
        assert ChosenStrategy(zsExpectationJsizes[..], flowsSorted, AverageZ, FlowPsize, base.Stats(), rI, rA, limit,
                              opt, r.value);
      }
    }
  }

  /** Sorting keeps every average defined. */
  lemma SortedRatiosDefined(flows: seq<FlowMetrics>, sorted: seq<FlowMetrics>)
    requires RatiosDefined(flows) && multiset(sorted) == multiset(flows)
    ensures RatiosDefined(sorted) && |sorted| == |flows|
  {
    assert |sorted| == |multiset(sorted)| == |flows|;
    forall i | 0 <= i < |sorted|
      ensures sorted[i].totalPsize != 0
    {
      assert sorted[i] in multiset(flows);
    }
  }

  /** The policy's part of `WSJFInorderAnalyzer(config, log)` once the base
      analyzer has read a non-empty log: the hook on every packet in file
      order, then the expectations. */
  method Populate(base: BaseAnalyzer, ps: seq<LogPacket>) returns (a: WsjfInorderAnalyzer, r: Result<()>)
    requires base.numTotalPackets == |ps| > 0
    ensures fresh(a) && a.base == base && a.Valid() && a.packets == ps
    ensures r.Success? ==>
              && fresh(a.zsExpectationJsizes) && a.flowsSorted != []
              && multiset(a.flowsSorted) == multiset(Values(a.flowIds, a.flowMetricsMap))
              && SortedBy(a.flowsSorted, AverageZ) && RatiosDefined(a.flowsSorted)
              && a.zsExpectationJsizes.Length == TopSlot(a.flowsSorted, AverageZ) + 1
    ensures r.Success? && ZSlot(AverageZ(a.flowsSorted[0])) >= 0 ==>
              SlotProfile(a.flowsSorted, SlotKey(AverageZ), FlowJsize, |ps| as real,
                          Zeros(a.zsExpectationJsizes.Length), a.zsExpectationJsizes[..])
  {
    a := Collect(base, ps);
    r := a.ComputeExpectation();
  }

  /** A new analyzer after the hook has seen every packet of `ps`. */
  method Collect(base: BaseAnalyzer, ps: seq<LogPacket>) returns (a: WsjfInorderAnalyzer)
    ensures fresh(a) && a.base == base && a.Valid() && a.packets == ps
    ensures a.flowsSorted == [] && a.zsExpectationJsizes.Length == 0
  {
    a := new WsjfInorderAnalyzer(base);
    a.AnalyzePackets(ps);
  }

  /** `WSJFInorderAnalyzer(config, log)`: analyse the log with the hook on
      every packet in file order, read the configuration, then compute the
      expectations. */
  method NewWsjfInorderAnalyzer(lines: seq<string>, config: map<string, map<string, real>>)
    returns (r: Result<WsjfInorderAnalyzer>)
    ensures ParseLog(lines).Failure? ==> r == Failure(ParseLog(lines).error)
    ensures r.Success? ==> ParseLog(lines).Success? && Summarize(ParseLog(lines).value).Success? &&
                           HasAttackJsize(config)
    ensures r.Success? ==>
              var a := r.value;
              var ps := ParseLog(lines).value;
              && fresh(a) && fresh(a.base) && fresh(a.zsExpectationJsizes)
              && a.base.Analysed() && a.base.packets == ps && a.base.numTotalPackets == |ps|
              && a.base.maximumAttackJsize == config["application"]["max_attack_job_size_ns"]
              && a.Valid() && a.packets == ps && a.flowsSorted != []
              && multiset(a.flowsSorted) == multiset(Values(a.flowIds, a.flowMetricsMap))
              && SortedBy(a.flowsSorted, AverageZ) && RatiosDefined(a.flowsSorted)
              && a.zsExpectationJsizes.Length == TopSlot(a.flowsSorted, AverageZ) + 1
              && (ZSlot(AverageZ(a.flowsSorted[0])) >= 0 ==>
                    SlotProfile(a.flowsSorted, SlotKey(AverageZ), FlowJsize, |ps| as real,
                                Zeros(a.zsExpectationJsizes.Length), a.zsExpectationJsizes[..]))
  {
    var base, packets := Load(lines, config);
    if packets.Failure? {
      return Failure(packets.error);
    }
    var a, c := Populate(base, packets.value);
    if c.Failure? {
      return Failure(c.error);
    }
    return Success(a);
  }

  // ---------------------------------------------------------------------
  // What the expectations and the strategy mean
  // ---------------------------------------------------------------------

  /** The top slot of the profile holds the mean job size of the whole log:
      splitting the log into flows and sorting them loses nothing. */
  lemma TopSlotMean(ids: seq<string>, m: map<string, FlowMetrics>, ps: seq<LogPacket>,
                    flows: seq<FlowMetrics>, n: real, slots: seq<real>, before: seq<real>)
    requires Profiles(ids, m, ps) && multiset(flows) == multiset(Values(ids, m))
    requires n == |ps| as real && SortedBy(flows, AverageZ)
    requires |flows| > 0 && ZSlot(AverageZ(flows[0])) >= 0
    requires |slots| == TopSlot(flows, AverageZ) + 1
    requires SlotProfile(flows, SlotKey(AverageZ), FlowJsize, n, before, slots)
    ensures slots[|slots| - 1] * n == JsizeSum(ps)
  {
    var key := SlotKey(AverageZ);
    var top := |slots| - 1;
    SlotsInRange(flows, AverageZ, |slots|);
    assert key(flows[|flows| - 1]) == top;
    assert top in KeySet(flows, key);
    RealFilterSumAll(flows, key, FlowJsize, top);
    ProfileConserves(ids, m, ps, flows);
  }

  /** When the chosen ratio is no smaller than every flow's average, every
      flow is scheduled and the expected goodput is at least `r_I`. */
  lemma AllScheduledGoodput(rI: real, ids: seq<string>, m: map<string, FlowMetrics>, ps: seq<LogPacket>,
                            flows: seq<FlowMetrics>, opt: real)
    requires Profiles(ids, m, ps) && multiset(flows) == multiset(Values(ids, m))
    requires forall i :: 0 <= i < |flows| ==> AverageZ(flows[i]) <= opt
    requires rI >= 0.0 && Summarize(ps).Success? && PsizeSum(ps) >= 0
    requires Goodput(rI, FilterSum(flows, AverageZ, FlowPsize, opt), Summarize(ps).value).Success?
    ensures Goodput(rI, FilterSum(flows, AverageZ, FlowPsize, opt), Summarize(ps).value).value >= rI
  {
    FilterSumAll(flows, AverageZ, FlowPsize, opt);
    ProfileConserves(ids, m, ps, flows);
    GoodputWhenAllScheduled(rI, ps);
  }
}
