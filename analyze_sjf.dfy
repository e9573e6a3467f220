/** The SJF analyzer (simulator/scripts/adversary/analyze_sjf.py): under
    shortest-job-first an attack job of size `j` is served before every
    innocent job larger than `j`, so the adversary looks for the largest job
    size that still saturates the server together with the innocent jobs
    below it.  The analyzer keeps the log's arrivals, the histogram of their
    truncated job sizes and, per truncated size, the cumulative expected job
    size. */
module AnalyzeSjf {
  import opened Wrappers
  import opened Numeric
  import opened AnalyzeCommon
  import opened AnalyzeScan
  import Utils

  // ---------------------------------------------------------------------
  // The histogram of truncated job sizes
  // ---------------------------------------------------------------------

  /** `jsizes_frequencies[k] += 1` on a `defaultdict(int)`. */
  function Bump(h: map<int, nat>, k: int): (h': map<int, nat>)
    ensures h'.Keys == h.Keys + {k}
    ensures h'[k] == (if k in h then h[k] else 0) + 1
    ensures forall j :: j in h && j != k ==> h'[j] == h[j]
  {
    h[k := if k in h then h[k] + 1 else 1]
  }

  /** The key the histogram counts: `int(jsize)`. */
  function TruncJsize(m: SchedulingMetrics): int { Trunc(m.jsize) }

  /** The histogram of `key` over `ms`, built one element at a time. */
  function Tally(ms: seq<SchedulingMetrics>, key: SchedulingMetrics -> int): map<int, nat>
  {
    if ms == [] then map[] else Bump(Tally(ms[..|ms| - 1], key), key(ms[|ms| - 1]))
  }

  /** The histogram the hook builds from `ms`, one packet at a time. */
  function Histogram(ms: seq<SchedulingMetrics>): map<int, nat>
  {
    Tally(ms, TruncJsize)
  }

  /** One more packet bumps its truncated size. */
  lemma HistogramAppend(ms: seq<SchedulingMetrics>, m: SchedulingMetrics)
    ensures Histogram(ms + [m]) == Bump(Histogram(ms), Trunc(m.jsize))
  {
    assert (ms + [m])[..|ms|] == ms;
    assert TruncJsize(m) == Trunc(m.jsize);
  }

  /** How many of `ms` have truncated job size `k`. */
  function CountOf(ms: seq<SchedulingMetrics>, k: int): nat
  {
    if ms == [] then 0
    else CountOf(ms[..|ms| - 1], k) + (if Trunc(ms[|ms| - 1].jsize) == k then 1 else 0)
  }

  /** The sum of the truncated job sizes of `ms`. */
  function TruncSum(ms: seq<SchedulingMetrics>): int
  {
    if ms == [] then 0 else TruncSum(ms[..|ms| - 1]) + Trunc(ms[|ms| - 1].jsize)
  }

  /** The histogram's keys are the truncated job sizes that occur. */
  lemma HistogramKeys(ms: seq<SchedulingMetrics>)
    ensures forall k :: k in Histogram(ms) <==> exists i :: 0 <= i < |ms| && Trunc(ms[i].jsize) == k
  {
    forall k | k in Histogram(ms)
      ensures exists i :: 0 <= i < |ms| && Trunc(ms[i].jsize) == k
    {
      var i := KeyOccurs(ms, k);
    }
    forall i | 0 <= i < |ms|
      ensures Trunc(ms[i].jsize) in Histogram(ms)
    {
      OccurrenceIsKey(ms, i);
    }
  }

  /** A key of the histogram is the truncated size of some packet. */
  lemma {:induction false} KeyOccurs(ms: seq<SchedulingMetrics>, k: int) returns (i: nat)
    requires k in Histogram(ms)
    ensures i < |ms| && Trunc(ms[i].jsize) == k
  {
    var init := ms[..|ms| - 1];
    if k == Trunc(ms[|ms| - 1].jsize) {
      i := |ms| - 1;
    } else {
      i := KeyOccurs(init, k);
      assert ms[i] == init[i];
    }
  }

  /** The truncated size of every packet is a key of the histogram. */
  lemma {:induction false} OccurrenceIsKey(ms: seq<SchedulingMetrics>, i: nat)
    requires i < |ms|
    ensures Trunc(ms[i].jsize) in Histogram(ms)
  {
    var init := ms[..|ms| - 1];
    if i < |init| {
      OccurrenceIsKey(init, i);
      assert init[i] == ms[i];
    }
  }

  /** Each frequency counts the packets of that truncated job size, and a
      size missing from the histogram has no packets. */
  lemma {:induction false} HistogramCount(ms: seq<SchedulingMetrics>, k: int)
    ensures CountOf(ms, k) == if k in Histogram(ms) then Histogram(ms)[k] else 0
  {
    if ms != [] {
      HistogramCount(ms[..|ms| - 1], k);
    }
  }

  function Id(n: nat): nat { n }

  /** The frequencies add up to the number of packets. */
  lemma {:induction false} HistogramTotal(ms: seq<SchedulingMetrics>)
    ensures Utils.SumOver(Histogram(ms), Id) == |ms|
  {
    if ms != [] {
      var init := ms[..|ms| - 1];
      var t := Trunc(ms[|ms| - 1].jsize);
      HistogramTotal(init);
      BumpTotal(Histogram(init), t);
    }
  }

  /** One more count adds one to the total. */
  lemma BumpTotal(h: map<int, nat>, t: int)
    ensures Utils.SumOver(Bump(h, t), Id) == Utils.SumOver(h, Id) + 1
  {
    var v := if t in h then h[t] + 1 else 1;
    assert Bump(h, t) == h[t := v];
    Utils.SumOverUpdate(h, Id, t, v);
  }

  // ---------------------------------------------------------------------
  // The cumulative expectation
  // ---------------------------------------------------------------------

  /** The term of key `k` in the expectation: its density `frequency / N`
      times the job size. */
  function Weight(freq: map<int, nat>, n: nat): int -> real {
    k => if k in freq && n != 0 then (freq[k] as real / n as real) * k as real else 0.0
  }

  /** What `jsize_expectations[t]` is meant to hold: the expected truncated
      job size of a packet, counting only the jobs of truncated size at most
      `t`. */
  ghost function Cumulative(freq: map<int, nat>, n: nat, t: int): real {
    SetSum(freq.Keys, UpTo(Weight(freq, n), t))
  }

  /** Below every key the cumulative expectation is 0. */
  lemma CumulativeBelowAll(freq: map<int, nat>, n: nat, t: int)
    requires forall k :: k in freq ==> t < k
    ensures Cumulative(freq, n, t) == 0.0
  {
    SetSumZero(freq.Keys, UpTo(Weight(freq, n), t));
  }

  /** Moving from one key to the next in ascending order adds that key's
      weight to the cumulative expectation: nothing lies in between. */
  lemma CumulativeStep(freq: map<int, nat>, n: nat, ks: seq<int>, i: nat, prev: int)
    requires StrictlyIncreasing(ks) && (forall k :: k in ks <==> k in freq) && i < |ks|
    requires prev < ks[i] && (i > 0 ==> prev == ks[i - 1])
    requires i == 0 ==> forall k :: k in freq ==> prev < k
    ensures Cumulative(freq, n, ks[i]) == Cumulative(freq, n, prev) + Weight(freq, n)(ks[i])
  {
    var w := Weight(freq, n);
    forall j | j in freq.Keys && j != ks[i]
      ensures UpTo(w, prev)(j) == UpTo(w, ks[i])(j)
    {
      var m := IndexOf(ks, j);
      if m < i {
        assert ks[m] <= ks[i - 1];
      }
    }
    SetSumChangeOne(freq.Keys, UpTo(w, prev), UpTo(w, ks[i]), ks[i]);
  }

  /** The loop of `_compute_expectation`: over the histogram's keys in
      ascending order, add the key's density times the key to a running
      total and record the total under the key; the first density divides
      by `N`. */
  method Expectations(ks: seq<int>, freq: map<int, nat>, n: nat) returns (r: Result<map<int, real>>)
    requires StrictlyIncreasing(ks) && forall k :: k in ks <==> k in freq
    ensures r.Failure? <==> n == 0 && |ks| > 0
    ensures r.Failure? ==> r.error == ZeroDivision
    ensures r.Success? ==> r.value.Keys == freq.Keys
    ensures r.Success? ==> forall k :: k in freq ==> r.value[k] == Cumulative(freq, n, k)
  {
    var expectations := map[];
    var cumulative := 0.0;
    for i := 0 to |ks|
      invariant i > 0 ==> n != 0
      invariant i == 0 ==> cumulative == 0.0
      invariant i > 0 ==> cumulative == Cumulative(freq, n, ks[i - 1])
      invariant forall k :: k in expectations <==> k in ks[..i]
      invariant forall k :: k in expectations ==> expectations[k] == Cumulative(freq, n, k)
    {
      if n == 0 {
        return Failure(ZeroDivision);
      }
      var k := ks[i];
      var density := freq[k] as real / n as real;
      ghost var prev := if i == 0 then k - 1 else ks[i - 1];
      if i == 0 {
        CumulativeBelowAll(freq, n, prev);
      }
      CumulativeStep(freq, n, ks, i, prev);
      cumulative := cumulative + density * k as real;
      expectations := expectations[k := cumulative];
      assert ks[..i + 1] == ks[..i] + [k];
    }
    assert ks[..|ks|] == ks;
    SameKeys(ks, expectations, freq);
    return Success(expectations);
  }

  /** A map keyed by exactly the elements of `ks` has the keys of any other
      such map. */
  lemma SameKeys<U, V>(ks: seq<int>, a: map<int, U>, b: map<int, V>)
    requires forall k :: k in a <==> k in ks
    requires forall k :: k in ks <==> k in b
    ensures a.Keys == b.Keys
  {
    assert forall k :: k in a.Keys <==> k in b.Keys;
  }

  /** A weight is never negative for a non-negative key. */
  lemma WeightNonNegative(freq: map<int, nat>, n: nat, k: int)
    requires k >= 0
    ensures Weight(freq, n)(k) >= 0.0
  {
    if k in freq && n != 0 {
      var d := freq[k] as real / n as real;
      assert d >= 0.0;
      MulLe(0.0, k as real, d);
    }
  }

  /** With non-negative job sizes the expectations grow with the key. */
  lemma ExpectationMonotone(freq: map<int, nat>, n: nat, t1: int, t2: int)
    requires t1 <= t2 && forall k :: k in freq ==> k >= 0
    ensures Cumulative(freq, n, t1) <= Cumulative(freq, n, t2)
  {
    forall k | k in freq.Keys
      ensures Weight(freq, n)(k) >= 0.0
    {
      WeightNonNegative(freq, n, k);
    }
    CumulativeMonotone(freq.Keys, Weight(freq, n), t1, t2);
  }

  /** `(c + 1) / n * t` is `c / n * t` plus `t / n`. */
  lemma DensityStep(c: nat, n: nat, t: int)
    requires n != 0
    ensures (c + 1) as real / n as real * t as real == c as real / n as real * t as real + t as real / n as real
  {
    var x := c as real / n as real;
    assert (c + 1) as real / n as real == x + 1.0 / n as real;
    assert (x + 1.0 / n as real) * t as real == x * t as real + (1.0 / n as real) * t as real;
  }

  /** Counting one more packet of truncated size `t` adds `t / n` to the
      sum of the weights. */
  lemma BumpWeights(h: map<int, nat>, t: int, n: nat)
    requires n != 0
    ensures SetSum(Bump(h, t).Keys, Weight(Bump(h, t), n)) ==
            SetSum(h.Keys, Weight(h, n)) + t as real / n as real
  {
    if t in h {
      BumpKnown(h, t, n);
    } else {
      BumpNew(h, t, n);
    }
  }

  lemma BumpKnown(h: map<int, nat>, t: int, n: nat)
    requires n != 0 && t in h
    ensures SetSum(Bump(h, t).Keys, Weight(Bump(h, t), n)) ==
            SetSum(h.Keys, Weight(h, n)) + t as real / n as real
  {
    var h' := Bump(h, t);
    BumpKeepsWeights(h, t, n);
    SetSumChangeOne(h.Keys, Weight(h, n), Weight(h', n), t);
    WeightAfterBump(h, t, n);
    assert h'.Keys == h.Keys;
  }

  lemma BumpNew(h: map<int, nat>, t: int, n: nat)
    requires n != 0 && t !in h
    ensures SetSum(Bump(h, t).Keys, Weight(Bump(h, t), n)) ==
            SetSum(h.Keys, Weight(h, n)) + t as real / n as real
  {
    var h' := Bump(h, t);
    BumpKeepsWeights(h, t, n);
    SetSumInsert(h.Keys, Weight(h, n), Weight(h', n), t);
    WeightAfterBump(h, t, n);
    assert h'.Keys == h.Keys + {t};
  }

  /** Bumping `t` leaves the other weights alone. */
  lemma BumpKeepsWeights(h: map<int, nat>, t: int, n: nat)
    ensures forall j :: j in h && j != t ==> Weight(h, n)(j) == Weight(Bump(h, t), n)(j)
  {
  }

  /** Bumping `t` adds `t / n` to its weight. */
  lemma WeightAfterBump(h: map<int, nat>, t: int, n: nat)
    requires n != 0
    ensures Weight(Bump(h, t), n)(t) == Weight(h, n)(t) + t as real / n as real
  {
    var c := if t in h then h[t] else 0;
    assert Weight(h, n)(t) == c as real / n as real * t as real;
    assert Weight(Bump(h, t), n)(t) == (c + 1) as real / n as real * t as real;
    DensityStep(c, n, t);
  }

  /** Summed over all keys, the weights are the mean of the truncated job
      sizes: the histogram loses nothing of the log. */
  lemma {:induction false} HistogramMean(ms: seq<SchedulingMetrics>, n: nat)
    requires n != 0
    ensures SetSum(Histogram(ms).Keys, Weight(Histogram(ms), n)) == TruncSum(ms) as real / n as real
  {
    if ms == [] {
      SetSumZero(Histogram(ms).Keys, Weight(Histogram(ms), n));
    } else {
      var init := ms[..|ms| - 1];
      var t := Trunc(ms[|ms| - 1].jsize);
      HistogramMean(init, n);
      BumpWeights(Histogram(init), t, n);
      SplitQuotient(TruncSum(init), t, n);
    }
  }

  /** `a / n + t / n == (a + t) / n`. */
  lemma SplitQuotient(a: int, t: int, n: nat)
    requires n != 0
    ensures a as real / n as real + t as real / n as real == (a + t) as real / n as real
  {
  }

  /** At a key no smaller than every job size, the cumulative expectation is
      the mean truncated job size of the whole log. */
  lemma ExpectationAtLargest(ms: seq<SchedulingMetrics>, t: int)
    requires |ms| > 0 && forall k :: k in Histogram(ms) ==> k <= t
    ensures Cumulative(Histogram(ms), |ms|, t) == TruncSum(ms) as real / |ms| as real
  {
    CumulativeAll(Histogram(ms).Keys, Weight(Histogram(ms), |ms|), t);
    HistogramMean(ms, |ms|);
  }

  // ---------------------------------------------------------------------
  // The analyzer
  // ---------------------------------------------------------------------

  class SjfAnalyzer {
    const base: BaseAnalyzer
    /** `self.arrivals`: the packets' metrics, sorted by job size once the
        expectations are computed. */
    var arrivals: seq<SchedulingMetrics>
    /** `self.jsizes_frequencies`: truncated job size -> packets. */
    var jsizesFrequencies: map<int, nat>
    /** `self.jsize_expectations`: truncated job size -> cumulative
        expectation. */
    var jsizeExpectations: map<int, real>

    constructor(base: BaseAnalyzer)
      ensures this.base == base
      ensures arrivals == [] && jsizesFrequencies == map[] && jsizeExpectations == map[]
    {
      this.base := base;
      arrivals := [];
      jsizesFrequencies := map[];
      jsizeExpectations := map[];
    }

    /** `_analyze_log_packet`: keep the metrics and count the truncated job
        size, so that the frequencies stay the histogram of the arrivals. */
    method AnalyzePacket(p: LogPacket)
      requires jsizesFrequencies == Histogram(arrivals)
      modifies this
      ensures arrivals == old(arrivals) + [p.metrics]
      ensures jsizesFrequencies == Histogram(arrivals)
      ensures jsizeExpectations == old(jsizeExpectations)
    {
      HistogramAppend(arrivals, p.metrics);
      arrivals := arrivals + [p.metrics];
      var k := Trunc(p.metrics.jsize);
      jsizesFrequencies := jsizesFrequencies[k := (if k in jsizesFrequencies then jsizesFrequencies[k] else 0) + 1];
    }

    /** The hook on each packet of a log, in order. */
    method AnalyzePackets(ps: seq<LogPacket>)
      requires jsizesFrequencies == Histogram(arrivals)
      modifies this
      ensures arrivals == old(arrivals) + MetricsOf(ps)
      ensures jsizesFrequencies == Histogram(arrivals)
      ensures jsizeExpectations == old(jsizeExpectations)
    {
      ghost var ms := MetricsOf(ps);
      for i := 0 to |ps|
        invariant arrivals == old(arrivals) + ms[..i]
        invariant jsizesFrequencies == Histogram(arrivals)
        invariant jsizeExpectations == old(jsizeExpectations)
      {
        AnalyzePacket(ps[i]);
        assert ms[..i + 1] == ms[..i] + [ps[i].metrics];
      }
      assert ms[..|ps|] == ms;
    }

    /** `_compute_expectation`: sort the arrivals by job size, then record
        the cumulative expectation under every truncated job size. */
    method ComputeExpectation() returns (r: Result<()>)
      modifies this
      ensures multiset(arrivals) == multiset(old(arrivals)) && SortedBy(arrivals, JsizeOf)
      ensures jsizesFrequencies == old(jsizesFrequencies)
      ensures r.Failure? <==> base.numTotalPackets == 0 && |jsizesFrequencies| > 0
      ensures r.Failure? ==> r.error == ZeroDivision && jsizeExpectations == old(jsizeExpectations)
      ensures r.Success? ==> jsizeExpectations.Keys == old(jsizeExpectations).Keys + jsizesFrequencies.Keys
      ensures r.Success? ==> forall k :: k in jsizesFrequencies ==>
                jsizeExpectations[k] == Cumulative(jsizesFrequencies, base.numTotalPackets, k)
      ensures r.Success? ==> forall k :: k in old(jsizeExpectations) && k !in jsizesFrequencies ==>
                jsizeExpectations[k] == old(jsizeExpectations)[k]
    {
      arrivals := SortBy(arrivals, JsizeOf);
      var ks := SortedKeys(jsizesFrequencies);
      var e := Expectations(ks, jsizesFrequencies, base.numTotalPackets);
      if e.Failure? {
        return Failure(e.error);
      }
      jsizeExpectations := jsizeExpectations + e.value;
      return Success(());
    }

    /** `get_optimal_strategy`: the scan picks the job size, the arrivals no
        larger than it are scheduled, and the goodput is their share of the
        innocent bits. */
    method GetOptimalStrategy(rI: real, rA: real) returns (r: Result<AttackStrategy>)
      requires SortedBy(arrivals, JsizeOf)
      ensures |jsizeExpectations| > 0 && base.averageInnocentPsize == 0 ==> r == Failure(ZeroDivision)
      ensures base.numTotalPackets * base.averageInnocentPsize == 0 ==> r == Failure(ZeroDivision)
      ensures base.numTotalPackets * base.averageInnocentPsize != 0 ==> r.Success?
      ensures r.Success? ==>
                var opt := r.value.estimatedJsize;
                && base.averageInnocentPsize != 0
                && KeyOptimum(jsizeExpectations, rI, rA, base.averageInnocentPsize,
                              base.maximumInnocentJsize, opt)
                && r.value.actualJsize == opt && r.value.psize == MinPacketSize
                && Goodput(rI, FilterSum(arrivals, JsizeOf, PsizeOf, opt), base.Stats())
                   == Success(r.value.expectedGoodput)
                && r.value.alpha == Alpha(rI, rA, base.rMax, r.value.expectedGoodput)
    {
      var ks := SortedKeys(jsizeExpectations);
      var opt :- KeyScan(ks, jsizeExpectations, rI, rA, base.averageInnocentPsize, base.maximumInnocentJsize);
      var scheduled := ScheduledSize(arrivals, JsizeOf, PsizeOf, opt);
      var g :- Goodput(rI, scheduled, base.Stats());
      return Success(AttackStrategy(opt, opt, MinPacketSize, g, Alpha(rI, rA, base.rMax, g)));
    }
  }

  /** The policy's part of `SJFAnalyzer(config, log)` once the base
      analyzer has read a non-empty log: the hook on every packet in file
      order, then the expectations. */
  method Populate(base: BaseAnalyzer, ps: seq<LogPacket>) returns (a: SjfAnalyzer)
    requires base.numTotalPackets == |ps| > 0
    ensures fresh(a) && a.base == base
    ensures multiset(a.arrivals) == multiset(MetricsOf(ps)) && SortedBy(a.arrivals, JsizeOf)
    ensures a.jsizesFrequencies == Histogram(MetricsOf(ps))
    ensures a.jsizeExpectations.Keys == a.jsizesFrequencies.Keys
    ensures forall k :: k in a.jsizeExpectations ==>
              a.jsizeExpectations[k] == Cumulative(a.jsizesFrequencies, |ps|, k)
  {
    a := Collect(base, ps);
    var c := a.ComputeExpectation();
  }

  /** A new analyzer after the hook has seen every packet of `ps`. */
  method Collect(base: BaseAnalyzer, ps: seq<LogPacket>) returns (a: SjfAnalyzer)
    ensures fresh(a) && a.base == base
    ensures a.arrivals == MetricsOf(ps) && a.jsizesFrequencies == Histogram(MetricsOf(ps))
    ensures a.jsizeExpectations == map[]
  {
    a := new SjfAnalyzer(base);
    a.AnalyzePackets(ps);
  }

  /** `SJFAnalyzer(config, log)`: analyse the log with the hook on every
      packet in file order, read the configuration, then compute the
      expectations.  Afterwards the arrivals are the log's metrics sorted by
      job size, the frequencies its histogram and the expectations the
      cumulative ones, one per truncated job size. */
  method NewSjfAnalyzer(lines: seq<string>, config: map<string, map<string, real>>)
    returns (r: Result<SjfAnalyzer>)
    ensures r.Success? <==> ParseLog(lines).Success? && Summarize(ParseLog(lines).value).Success? &&
                            HasAttackJsize(config)
    ensures r.Success? ==>
              var a := r.value;
              var ps := ParseLog(lines).value;
              && fresh(a) && fresh(a.base)
              && a.base.Analysed() && a.base.packets == ps && a.base.numTotalPackets == |ps|
              && a.base.maximumAttackJsize == config["application"]["max_attack_job_size_ns"]
              && multiset(a.arrivals) == multiset(MetricsOf(ps)) && SortedBy(a.arrivals, JsizeOf)
              && a.jsizesFrequencies == Histogram(MetricsOf(ps))
              && a.jsizeExpectations.Keys == a.jsizesFrequencies.Keys
              && forall k :: k in a.jsizeExpectations ==>
                   a.jsizeExpectations[k] == Cumulative(a.jsizesFrequencies, |ps|, k)
  {
    var base, packets := Load(lines, config);
    if packets.Failure? {
      return Failure(packets.error);
    }
    var sjf := Populate(base, packets.value);
    return Success(sjf);
  }

  // ---------------------------------------------------------------------
  // What the strategy means
  // ---------------------------------------------------------------------

  /** With non-negative rates and expectations that grow with the key, a
      larger key saturates whenever a smaller one does: the optimum is a
      threshold. */
  lemma SaturationPersists(freq: map<int, nat>, n: nat, k1: int, k2: int, rI: real, rA: real, avgP: int)
    requires avgP > 0 && rI >= 0.0 && rA >= 0.0 && k1 <= k2
    requires forall k :: k in freq ==> k >= 0
    ensures var e := map k | k in freq :: Cumulative(freq, n, k);
            k1 in e && k2 in e && KeySaturates(k1, e, rI, rA, avgP) ==> KeySaturates(k2, e, rI, rA, avgP)
  {
    var e := map k | k in freq :: Cumulative(freq, n, k);
    if k1 in e && k2 in e {
      ExpectationMonotone(freq, n, k1, k2);
      KeyWorkMonotone(rA, k1, k2);
      SaturatesMonotone(rI, avgP, e[k1], e[k2], KeyWork(rA, k1), KeyWork(rA, k2));
    }
  }

  /** More work saturates whenever less does. */
  lemma SaturatesMonotone(rI: real, avgP: int, e1: real, e2: real, w1: real, w2: real)
    requires avgP > 0 && rI >= 0.0 && e1 <= e2 && w1 <= w2
    ensures Saturates(rI, avgP, e1, w1) ==> Saturates(rI, avgP, e2, w2)
  {
    var rate := rI / avgP as real;
    MulLe(e1, e2, rate);
    assert rate * e1 <= rate * e2;
  }

  /** The adversary's work grows with the job size. */
  lemma KeyWorkMonotone(rA: real, k1: int, k2: int)
    requires rA >= 0.0 && k1 <= k2
    ensures KeyWork(rA, k1) <= KeyWork(rA, k2)
  {
    MulLe(MaxInt(0, k1 - 1) as real, MaxInt(0, k2 - 1) as real, rA / 512.0);
  }

  /** When the optimum is no smaller than the key (job size, or z-ratio for
      WSJF) of every packet, every arrival is scheduled and the expected
      goodput is at least `r_I`: the attack then costs the innocent traffic
      nothing. */
  lemma AllScheduledGoodput(rI: real, arrivals: seq<SchedulingMetrics>, ps: seq<LogPacket>,
                            key: SchedulingMetrics -> real, opt: real)
    requires multiset(arrivals) == multiset(MetricsOf(ps))
    requires forall i :: 0 <= i < |ps| ==> key(ps[i].metrics) <= opt
    requires rI >= 0.0 && Summarize(ps).Success? && PsizeSum(ps) >= 0
    requires Goodput(rI, FilterSum(arrivals, key, PsizeOf, opt), Summarize(ps).value).Success?
    ensures Goodput(rI, FilterSum(arrivals, key, PsizeOf, opt), Summarize(ps).value).value >= rI
  {
    var ms := MetricsOf(ps);
    FilterSumPermutation(arrivals, ms, key, PsizeOf, opt);
    FilterSumAll(ms, key, PsizeOf, opt);
    MetricsPsizeSum(ps);
    GoodputWhenAllScheduled(rI, ps);
  }
}
