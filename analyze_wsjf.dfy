/** The WSJF analyzer (simulator/scripts/adversary/analyze_wsjf.py): under
    weighted shortest-job-first a packet is ranked by its z-ratio, job size
    over packet size, so the adversary looks for the largest z-ratio that
    does not yet saturate the server.  The analyzer keeps the arrivals,
    sorted by z-ratio, and a dense array whose slot `i` stands for the ratio
    `i / 4096` and holds the cumulative expected job size of the arrivals
    that round to it or below.  The array and the scan over it are shared
    with the WSJF-Inorder analyzer. */
module AnalyzeWsjf {
  import opened Wrappers
  import opened Numeric
  import opened AnalyzeCommon
  import opened AnalyzeScan
  import AnalyzeSjf

  // ---------------------------------------------------------------------
  // Slots of the scaled-ratio array
  // ---------------------------------------------------------------------

  /** `round(z * SCALING_FACTOR)`: the slot of ratio `z`. */
  function ZSlot(z: real): int {
    Round(z * ScalingFactor as real)
  }

  /** The slot of an element whose ratio `ratio` gives. */
  function SlotKey<T>(ratio: T -> real): T -> int {
    x => ZSlot(ratio(x))
  }

  /** The slot of the largest ratio: one less than the array's length. */
  function TopSlot<T>(xs: seq<T>, ratio: T -> real): int
    requires |xs| > 0
  {
    ZSlot(ratio(xs[|xs| - 1]))
  }

  /** `np.zeros(len)`. */
  function Zeros(len: nat): (z: seq<real>)
    ensures |z| == len && forall i :: 0 <= i < len ==> z[i] == 0.0
  {
    seq(len, _ => 0.0)
  }

  /** Elements sorted by ratio have ascending slots: rounding is monotone. */
  lemma SlotsAscending<T>(xs: seq<T>, ratio: T -> real)
    requires SortedBy(xs, ratio)
    ensures KeysAscending(xs, SlotKey(ratio))
  {
    forall i, j | 0 <= i < j < |xs|
      ensures SlotKey(ratio)(xs[i]) <= SlotKey(ratio)(xs[j])
    {
      MulLe(ratio(xs[i]), ratio(xs[j]), ScalingFactor as real);
      RoundMonotone(ratio(xs[i]) * ScalingFactor as real, ratio(xs[j]) * ScalingFactor as real);
    }
  }

  /** In an array one longer than the top slot, every slot from the first
      element's on is a valid index. */
  lemma SlotsInRange<T>(xs: seq<T>, ratio: T -> real, len: nat)
    requires SortedBy(xs, ratio) && |xs| > 0 && len == TopSlot(xs, ratio) + 1
    ensures ZSlot(ratio(xs[0])) >= 0 ==> KeysIndex(xs, SlotKey(ratio), len)
    ensures forall i :: 0 <= i < |xs| ==> ZSlot(ratio(xs[0])) <= SlotKey(ratio)(xs[i]) < len
  {
    SlotsAscending(xs, ratio);
  }

  /** The loop of `_compute_expectation` on the array `np.zeros(top + 1)`:
      walk the sorted elements adding each one's share `val / N` to a
      running value written into the element's slot.  It divides by zero
      when `N` is 0, and a slot below `-len` is an IndexError; otherwise it
      succeeds.  With no negative slot the array then holds the profile:
      each element's slot holds `1 / N` of the values of the elements with
      slots up to it, every other slot is untouched. */
  method FillSlots<T>(xs: seq<T>, ratio: T -> real, val: T -> real, n: nat, slots: array<real>)
    returns (r: Result<()>)
    requires SortedBy(xs, ratio) && |xs| > 0 && slots.Length == TopSlot(xs, ratio) + 1
    modifies slots
    ensures r.Success? <==> n != 0 && ZSlot(ratio(xs[0])) >= -slots.Length
    ensures r.Failure? ==> r.error == if n == 0 then ZeroDivision else IndexOutOfRange
    ensures r.Success? && ZSlot(ratio(xs[0])) >= 0 ==>
              SlotProfile(xs, SlotKey(ratio), val, n as real, old(slots[..]), slots[..])
  {
    SlotsAscending(xs, ratio);
    SlotsInRange(xs, ratio, slots.Length);
    r := RunningSharesInto(xs, SlotKey(ratio), val, n, slots);
    if n != 0 && ZSlot(ratio(xs[0])) >= -slots.Length {
      forall i | 0 <= i < |xs|
        ensures NumpyIndex(SlotKey(ratio)(xs[i]), slots.Length).Some?
      {
      }
    }
    if r.Success? {
      assert NumpyIndex(SlotKey(ratio)(xs[0]), slots.Length).Some?;
    }
  }

  // ---------------------------------------------------------------------
  // The strategy
  // ---------------------------------------------------------------------

  /** The ratio the scan starts from: the largest innocent job size in a
      minimum-size packet. */
  function InitialRatio(stats: LogStats): real {
    stats.maximumInnocentJsize / MinPacketSize as real
  }

  /** What `get_optimal_strategy` returns for the optimal ratio `opt`: the
      ratio is the optimum of the scan over `slots`; its fraction with a
      denominator of at most 12144, rescaled to a packet of at least 8192
      bits, gives the job size (estimated and actual alike) and the packet
      size; the goodput is the share of the innocent bits of the elements
      with ratios up to `opt`, and alpha follows from it. */
  ghost predicate ChosenStrategy<T>(slots: seq<real>, xs: seq<T>, ratio: T -> real, size: T -> int,
                                    stats: LogStats, rI: real, rA: real, limit: real -> Fraction,
                                    opt: real, s: AttackStrategy)
    requires LimitsDenominator(limit, MaxPacketSize)
  {
    && stats.averageInnocentPsize != 0
    && SlotOptimum(slots, rI, rA, stats.averageInnocentPsize, InitialRatio(stats), opt)
    && s.estimatedJsize == Encode(limit(opt)).0 as real
    && s.actualJsize == s.estimatedJsize
    && s.psize == Encode(limit(opt)).1
    && Goodput(rI, FilterSum(xs, ratio, size, opt), stats) == Success(s.expectedGoodput)
    && s.alpha == Alpha(rI, rA, stats.rMax, s.expectedGoodput)
  }

  /** `get_optimal_strategy` of both WSJF analyzers over the array `slots`
      and the elements `xs` sorted by ratio (`limit` stands for
      `Fraction(x).limit_denominator(12144)`).  The only failure is the
      division by zero of the goodput (or, first, of the scan) when there
      are no packets or the average packet size truncates to 0. */
  method SlotStrategy<T>(slots: array<real>, xs: seq<T>, ratio: T -> real, size: T -> int,
                         stats: LogStats, rI: real, rA: real, limit: real -> Fraction)
    returns (r: Result<AttackStrategy>, ghost opt: real)
    requires SortedBy(xs, ratio) && LimitsDenominator(limit, MaxPacketSize)
    ensures r.Failure? <==> stats.numTotalPackets * stats.averageInnocentPsize == 0
    ensures r.Failure? ==> r.error == ZeroDivision
    ensures r.Success? ==> ChosenStrategy(slots[..], xs, ratio, size, stats, rI, rA, limit, opt, r.value)
    ensures r.Success? ==> OptimalAdvPsize <= r.value.psize <= MaxPacketSize
  {
    var scan := SlotScan(slots, rI, rA, stats.averageInnocentPsize, InitialRatio(stats));
    if scan.Failure? {
      return Failure(scan.error), 0.0;
    }
    var optimal := scan.value;
    opt := optimal;
    var scheduled := ScheduledSize(xs, ratio, size, optimal);
    var goodput := Goodput(rI, scheduled, stats);
    if goodput.Failure? {
      return Failure(goodput.error), opt;
    }
    var g := goodput.value;
    var alpha := Alpha(rI, rA, stats.rMax, g);
    var ratioFraction := limit(optimal);
    var (jsize, psize) := Encode(ratioFraction);
    EncodePacketSize(ratioFraction);
    var s := AttackStrategy(jsize as real, jsize as real, psize, g, alpha);
    return Success(s), opt;
  }

  // ---------------------------------------------------------------------
  // The analyzer
  // ---------------------------------------------------------------------

  /** The slot of an arrival's z-ratio. */
  function ArrivalSlot(m: SchedulingMetrics): int { ZSlot(m.zRatio) }

  class WsjfAnalyzer {
    const base: BaseAnalyzer
    /** `self.arrivals`: the packets' metrics, sorted by z-ratio once the
        expectations are computed. */
    var arrivals: seq<SchedulingMetrics>
    /** `self.zs_expectation_jsizes`: slot -> cumulative expectation.  It is
        `None` until the expectations are computed; an empty array stands
        for that here. */
    var zsExpectationJsizes: array<real>

    constructor(base: BaseAnalyzer)
      ensures this.base == base && arrivals == [] && zsExpectationJsizes.Length == 0
    {
      this.base := base;
      arrivals := [];
      zsExpectationJsizes := new real[0];
    }

    /** `_analyze_log_packet`: keep the packet's metrics. */
    method AnalyzePacket(p: LogPacket)
      modifies this`arrivals
      ensures arrivals == old(arrivals) + [p.metrics]
    {
      arrivals := arrivals + [p.metrics];
    }

    /** The hook on each packet of a log, in order. */
    method AnalyzePackets(ps: seq<LogPacket>)
      modifies this`arrivals
      ensures arrivals == old(arrivals) + MetricsOf(ps)
    {
      ghost var ms := MetricsOf(ps);
      for i := 0 to |ps|
        invariant arrivals == old(arrivals) + ms[..i]
      {
        AnalyzePacket(ps[i]);
        assert ms[..i + 1] == ms[..i] + [ps[i].metrics];
      }
      assert ms[..|ps|] == ms;
    }

    /** `_compute_expectation`: sort the arrivals by z-ratio, allocate
        `np.zeros(round(4096 * max_z) + 1)` (an IndexError without arrivals,
        a ValueError for a negative length), then fill the slots with the
        running expectation. */
    method ComputeExpectation() returns (r: Result<()>)
      modifies this`arrivals, this`zsExpectationJsizes
      ensures multiset(arrivals) == multiset(old(arrivals)) && SortedBy(arrivals, ZRatioOf)
      ensures arrivals == [] ==>
                r == Failure(IndexOutOfRange) && zsExpectationJsizes == old(zsExpectationJsizes)
      ensures arrivals != [] && TopSlot(arrivals, ZRatioOf) < -1 ==>
                r == Failure(ValueInvalid) && zsExpectationJsizes == old(zsExpectationJsizes)
      ensures arrivals != [] && TopSlot(arrivals, ZRatioOf) >= -1 ==>
                && fresh(zsExpectationJsizes)
                && zsExpectationJsizes.Length == TopSlot(arrivals, ZRatioOf) + 1
                && (r.Success? <==> base.numTotalPackets != 0 &&
                                    ArrivalSlot(arrivals[0]) >= -zsExpectationJsizes.Length)
                && (r.Failure? ==> r.error == if base.numTotalPackets == 0 then ZeroDivision else IndexOutOfRange)
      ensures r.Success? && ArrivalSlot(arrivals[0]) >= 0 ==>
                SlotProfile(arrivals, SlotKey(ZRatioOf), JsizeOf, base.numTotalPackets as real,
                            Zeros(zsExpectationJsizes.Length), zsExpectationJsizes[..])
    {
      arrivals := SortBy(arrivals, ZRatioOf);
      assert |arrivals| == |multiset(arrivals)| == |old(arrivals)|;
      if |arrivals| == 0 {
        return Failure(IndexOutOfRange);
      }
      var top := ZSlot(arrivals[|arrivals| - 1].zRatio);
      if top + 1 < 0 {
        return Failure(ValueInvalid);
      }
      var slots := new real[top + 1](_ => 0.0);
      assert slots[..] == Zeros(top + 1);
      zsExpectationJsizes := slots;
      r := FillSlots(arrivals, ZRatioOf, JsizeOf, base.numTotalPackets, slots);
    }

    /** `get_optimal_strategy`: the scan over the slots picks the ratio, the
        arrivals with z-ratios up to it are scheduled, and the ratio is
        encoded as a job size in a packet of 8192 to 12144 bits. */
    method GetOptimalStrategy(rI: real, rA: real, limit: real -> Fraction) returns (r: Result<AttackStrategy>)
      requires SortedBy(arrivals, ZRatioOf) && LimitsDenominator(limit, MaxPacketSize)
      ensures r.Failure? <==> base.numTotalPackets * base.averageInnocentPsize == 0
      ensures r.Failure? ==> r.error == ZeroDivision
      ensures r.Success? ==> exists opt :: ChosenStrategy(zsExpectationJsizes[..], arrivals, ZRatioOf, PsizeOf,
                                                         base.Stats(), rI, rA, limit, opt, r.value)
      ensures r.Success? ==> OptimalAdvPsize <= r.value.psize <= MaxPacketSize
    {
      ghost var opt;
      r, opt := SlotStrategy(zsExpectationJsizes, arrivals, ZRatioOf, PsizeOf, base.Stats(), rI, rA, limit);
      if r.Success? {
        assert ChosenStrategy(zsExpectationJsizes[..], arrivals, ZRatioOf, PsizeOf, base.Stats(), rI, rA, limit,
                              opt, r.value);
      }
    }
  }

  /** The policy's part of `WSJFAnalyzer(config, log)` once the base
      analyzer has read a non-empty log: the hook on every packet in file
      order, then the expectations. */
  method Populate(base: BaseAnalyzer, ps: seq<LogPacket>) returns (a: WsjfAnalyzer, r: Result<()>)
    requires base.numTotalPackets == |ps| > 0
    ensures fresh(a) && a.base == base
    ensures multiset(a.arrivals) == multiset(MetricsOf(ps)) && SortedBy(a.arrivals, ZRatioOf)
    ensures r.Success? <==> TopSlot(a.arrivals, ZRatioOf) >= -1 &&
                            ArrivalSlot(a.arrivals[0]) >= -(TopSlot(a.arrivals, ZRatioOf) + 1)
    ensures r.Success? ==> fresh(a.zsExpectationJsizes) &&
                           a.zsExpectationJsizes.Length == TopSlot(a.arrivals, ZRatioOf) + 1
    ensures r.Success? && ArrivalSlot(a.arrivals[0]) >= 0 ==>
              SlotProfile(a.arrivals, SlotKey(ZRatioOf), JsizeOf, |ps| as real,
                          Zeros(a.zsExpectationJsizes.Length), a.zsExpectationJsizes[..])
  {
    a := Collect(base, ps);
    r := a.ComputeExpectation();
  }

  /** A new analyzer after the hook has seen every packet of `ps`. */
  method Collect(base: BaseAnalyzer, ps: seq<LogPacket>) returns (a: WsjfAnalyzer)
    ensures fresh(a) && a.base == base && a.arrivals == MetricsOf(ps)
  {
    a := new WsjfAnalyzer(base);
    a.AnalyzePackets(ps);
  }

  /** `WSJFAnalyzer(config, log)`: analyse the log with the hook on every
      packet in file order, read the configuration, then compute the
      expectations.  On top of the base analyzer's failures, a largest
      z-ratio that rounds to a slot below -1 is a ValueError and a smallest
      one whose slot lies more than the array's length below 0 an
      IndexError. */
  method NewWsjfAnalyzer(lines: seq<string>, config: map<string, map<string, real>>)
    returns (r: Result<WsjfAnalyzer>)
    ensures ParseLog(lines).Failure? ==> r == Failure(ParseLog(lines).error)
    ensures r.Success? ==> ParseLog(lines).Success? && Summarize(ParseLog(lines).value).Success? &&
                           HasAttackJsize(config)
    ensures r.Success? ==>
              var a := r.value;
              var ps := ParseLog(lines).value;
              && fresh(a) && fresh(a.base) && fresh(a.zsExpectationJsizes)
              && a.base.Analysed() && a.base.packets == ps && a.base.numTotalPackets == |ps|
              && a.base.maximumAttackJsize == config["application"]["max_attack_job_size_ns"]
              && multiset(a.arrivals) == multiset(MetricsOf(ps)) && SortedBy(a.arrivals, ZRatioOf)
              && a.zsExpectationJsizes.Length == TopSlot(a.arrivals, ZRatioOf) + 1
              && (ArrivalSlot(a.arrivals[0]) >= 0 ==>
                    SlotProfile(a.arrivals, SlotKey(ZRatioOf), JsizeOf, |ps| as real,
                                Zeros(a.zsExpectationJsizes.Length), a.zsExpectationJsizes[..]))
  {
    var base, packets := Load(lines, config);
    if packets.Failure? {
      return Failure(packets.error);
    }
    var wsjf, c := Populate(base, packets.value);
    if c.Failure? {
      return Failure(c.error);
    }
    return Success(wsjf);
  }

  // ---------------------------------------------------------------------
  // What the expectations and the strategy mean
  // ---------------------------------------------------------------------

  /** The job sizes of the metrics add up to the log's total. */
  lemma {:induction false} MetricsJsizeSum(ps: seq<LogPacket>)
    ensures RealTotal(MetricsOf(ps), JsizeOf) == JsizeSum(ps)
  {
    if ps != [] {
      var init := ps[..|ps| - 1];
      assert MetricsOf(ps)[..|ps| - 1] == MetricsOf(init);
      MetricsJsizeSum(init);
    }
  }

  /** The top slot of the profile holds the mean job size of the whole log:
      sorting the arrivals loses none of them. */
  lemma TopSlotMean(ps: seq<LogPacket>, arrivals: seq<SchedulingMetrics>, n: real, slots: seq<real>, before: seq<real>)
    requires n == |ps| as real && multiset(arrivals) == multiset(MetricsOf(ps)) && SortedBy(arrivals, ZRatioOf)
    requires |arrivals| > 0 && ArrivalSlot(arrivals[0]) >= 0
    requires |slots| == TopSlot(arrivals, ZRatioOf) + 1
    requires SlotProfile(arrivals, SlotKey(ZRatioOf), JsizeOf, n, before, slots)
    ensures slots[|slots| - 1] * n == JsizeSum(ps)
  {
    var key := SlotKey(ZRatioOf);
    var top := |slots| - 1;
    SlotsInRange(arrivals, ZRatioOf, |slots|);
    assert key(arrivals[|arrivals| - 1]) == top;
    assert top in KeySet(arrivals, key);
    RealFilterSumAll(arrivals, key, JsizeOf, top);
    RealTotalPermutation(arrivals, MetricsOf(ps), JsizeOf);
    MetricsJsizeSum(ps);
  }

  /** With non-negative job sizes the slots that some arrival rounds to grow
      with the slot; the slots in between hold 0, so the array as a whole
      need not grow. */
  lemma ProfileGrows<T>(xs: seq<T>, key: T -> int, val: T -> real, n: real, before: seq<real>,
                        slots: seq<real>, s1: int, s2: int)
    requires SlotProfile(xs, key, val, n, before, slots) && n > 0.0
    requires 0 <= s1 <= s2 < |slots| && s1 in KeySet(xs, key) && s2 in KeySet(xs, key)
    requires forall i :: 0 <= i < |xs| ==> val(xs[i]) >= 0.0
    ensures slots[s1] <= slots[s2]
  {
    var v1 := SlotValue(xs, key, val, n, before, slots, s1);
    var v2 := SlotValue(xs, key, val, n, before, slots, s2);
    RealFilterSumMonotone(xs, key, val, s1, s2);
    ScaledLe(slots[s1], slots[s2], n, v1, v2);
  }

  /** The slot of a key that occurs holds `1 / n` of the values up to it. */
  lemma SlotValue<T>(xs: seq<T>, key: T -> int, val: T -> real, n: real, before: seq<real>,
                     slots: seq<real>, s: int) returns (v: real)
    requires SlotProfile(xs, key, val, n, before, slots)
    requires 0 <= s < |slots| && s in KeySet(xs, key)
    ensures v == RealFilterSum(xs, key, val, s) && slots[s] * n == v
  {
    v := RealFilterSum(xs, key, val, s);
  }

  /** The scan's optimum is unique: `SlotOptimum` describes one ratio. */
  lemma OptimumUnique(slots: seq<real>, rI: real, rA: real, avgP: int, initial: real, o1: real, o2: real)
    requires avgP != 0
    requires SlotOptimum(slots, rI, rA, avgP, initial, o1) && SlotOptimum(slots, rI, rA, avgP, initial, o2)
    ensures o1 == o2
  {
    if exists i :: 0 <= i < |slots| && SlotSaturates(slots, i, rI, rA, avgP) {
      var i1 :| && 0 <= i1 < |slots| && SlotSaturates(slots, i1, rI, rA, avgP)
                && (forall j :: 0 <= j < i1 ==> !SlotSaturates(slots, j, rI, rA, avgP)) && o1 == SlotBefore(i1, initial);
      var i2 :| && 0 <= i2 < |slots| && SlotSaturates(slots, i2, rI, rA, avgP)
                && (forall j :: 0 <= j < i2 ==> !SlotSaturates(slots, j, rI, rA, avgP)) && o2 == SlotBefore(i2, initial);
      assert i1 == i2;
    }
  }

  /** When the scan stops past the first slot, the load at the chosen ratio
      stays below capacity: its slot does not saturate. */
  lemma OptimumFeasible(slots: seq<real>, rI: real, rA: real, avgP: int, initial: real, opt: real)
    requires avgP != 0 && SlotOptimum(slots, rI, rA, avgP, initial, opt)
    ensures opt == initial ||
            exists i :: 0 <= i < |slots| && opt == i as real / ScalingFactor as real
                        && !SlotSaturates(slots, i, rI, rA, avgP)
  {
    if exists i :: && 0 <= i < |slots| && SlotSaturates(slots, i, rI, rA, avgP)
                   && (forall j :: 0 <= j < i ==> !SlotSaturates(slots, j, rI, rA, avgP)) && opt == SlotBefore(i, initial) {
      var i :| && 0 <= i < |slots| && SlotSaturates(slots, i, rI, rA, avgP)
               && (forall j :: 0 <= j < i ==> !SlotSaturates(slots, j, rI, rA, avgP)) && opt == SlotBefore(i, initial);
      if i > 0 {
        assert !SlotSaturates(slots, i - 1, rI, rA, avgP);
      }
    } else if |slots| > 0 {
      assert !SlotSaturates(slots, |slots| - 1, rI, rA, avgP);
    }
  }

  /** A ratio of 0 is sent as a zero job size in an 8192-bit packet. */
  lemma ZeroRatioStrategy<T>(slots: seq<real>, xs: seq<T>, ratio: T -> real, size: T -> int, stats: LogStats,
                             rI: real, rA: real, limit: real -> Fraction, s: AttackStrategy)
    requires LimitsDenominator(limit, MaxPacketSize)
    requires ChosenStrategy(slots, xs, ratio, size, stats, rI, rA, limit, 0.0, s)
    ensures s.estimatedJsize == s.actualJsize == 0.0 && s.psize == OptimalAdvPsize
  {
    EncodeZero();
  }

  /** When the chosen ratio is no smaller than every arrival's z-ratio,
      every arrival is scheduled and the expected goodput is at least `r_I`. */
  lemma AllScheduledGoodput(rI: real, arrivals: seq<SchedulingMetrics>, ps: seq<LogPacket>, opt: real)
    requires multiset(arrivals) == multiset(MetricsOf(ps))
    requires forall i :: 0 <= i < |ps| ==> ps[i].metrics.zRatio <= opt
    requires rI >= 0.0 && Summarize(ps).Success? && PsizeSum(ps) >= 0
    requires Goodput(rI, FilterSum(arrivals, ZRatioOf, PsizeOf, opt), Summarize(ps).value).Success?
    ensures Goodput(rI, FilterSum(arrivals, ZRatioOf, PsizeOf, opt), Summarize(ps).value).value >= rI
  {
    AnalyzeSjf.AllScheduledGoodput(rI, arrivals, ps, ZRatioOf, opt);
  }
}
