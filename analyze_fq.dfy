/** The FQ analyzer (simulator/scripts/adversary/analyze_fq.py): under fair
    queueing each of the `k` flows seen in the trace, and the adversary's
    flow, gets an equal share, so only the number of distinct flows matters
    beyond the base statistics. */
module AnalyzeFq {
  import opened Wrappers
  import opened Numeric
  import opened AnalyzeCommon

  /** A non-empty log has at least one flow. */
  lemma FlowsOfNonEmptyLog(ps: seq<LogPacket>)
    requires |ps| > 0
    ensures |FlowIds(ps)| >= 1
  {
    assert ps[0].flowId in FlowIds(ps);
  }

  class FqAnalyzer {
    const base: BaseAnalyzer
    /** `self.flows`: the flow ids seen so far. */
    var flows: set<string>

    constructor(base: BaseAnalyzer)
      ensures this.base == base && flows == {}
    {
      this.base := base;
      flows := {};
    }

    /** `_analyze_log_packet`: remember the packet's flow. */
    method AnalyzePacket(p: LogPacket)
      modifies this
      ensures flows == old(flows) + {p.flowId}
    {
      flows := flows + {p.flowId};
    }

    /** The hook of `_analyze_log` on each packet of a log, in order. */
    method AnalyzePackets(ps: seq<LogPacket>)
      modifies this
      ensures flows == old(flows) + FlowIds(ps)
    {
      for i := 0 to |ps|
        invariant flows == old(flows) + FlowIds(ps[..i])
      {
        AnalyzePacket(ps[i]);
        assert ps[..i + 1] == ps[..i] + [ps[i]];
      }
      assert ps[..|ps|] == ps;
    }

    /** `get_optimal_strategy` on this analyzer's state. */
    function GetOptimalStrategy(rI: real, rA: real): (r: Result<AttackStrategy>)
      reads this, base
      ensures r == OptimalStrategy(|flows|, base.Stats(), base.maximumAttackJsize, rI, rA)
    {
      OptimalStrategy(|flows|, base.Stats(), base.maximumAttackJsize, rI, rA)
    }
  }

  /** `FQAnalyzer(config, log)`: analyse the log, calling the hook on every
      packet in file order, then read the configuration.  Afterwards `flows`
      is exactly the set of flow ids of the log, and not empty. */
  method NewFqAnalyzer(lines: seq<string>, config: map<string, map<string, real>>)
    returns (r: Result<FqAnalyzer>)
    ensures r.Success? <==> ParseLog(lines).Success? && Summarize(ParseLog(lines).value).Success? &&
                            HasAttackJsize(config)
    ensures r.Success? ==>
              && fresh(r.value) && fresh(r.value.base)
              && r.value.base.Analysed() && r.value.base.packets == ParseLog(lines).value
              && r.value.base.maximumAttackJsize == config["application"]["max_attack_job_size_ns"]
              && r.value.flows == FlowIds(ParseLog(lines).value)
              && |r.value.flows| >= 1
  {
    var base, packets := Load(lines, config);
    if packets.Failure? {
      return Failure(packets.error);
    }
    var fq := new FqAnalyzer(base);
    fq.AnalyzePackets(packets.value);
    FlowsOfNonEmptyLog(packets.value);
    return Success(fq);
  }

  /** `get_optimal_strategy`: `k` flows share the capacity with the
      adversary's work, so the goodput is `k * r_max / (work + k)`, capped at
      `r_I`; with no flows and no attack work that divides by zero.  The
      strategy is the largest attack job in a minimum-size packet. */
  function OptimalStrategy(k: nat, stats: LogStats, maxAttackJsize: real, rI: real, rA: real)
    : (r: Result<AttackStrategy>)
    ensures r.Failure? <==> AttackWork(rA, maxAttackJsize) + k as real == 0.0
    ensures r.Failure? ==> r.error == ZeroDivision
    ensures k >= 1 && rA >= 0.0 && maxAttackJsize >= 0.0 ==> r.Success?
    ensures r.Success? ==>
              var d := AttackWork(rA, maxAttackJsize) + k as real;
              var g := r.value.expectedGoodput;
              && g <= rI
              && (g == rI || g * d == k as real * stats.rMax)
              && (d > 0.0 ==> g * d <= k as real * stats.rMax)
              && r.value.alpha == Alpha(rI, rA, stats.rMax, g)
              && r.value.estimatedJsize == maxAttackJsize && r.value.actualJsize == maxAttackJsize
              && r.value.psize == MinPacketSize
  {
    var d := AttackWork(rA, maxAttackJsize) + k as real;
    if d == 0.0 then Failure(ZeroDivision)
    else
      var g := MinReal(rI, (k as real * stats.rMax) / d);
      CappedShare(rI, k as real * stats.rMax, d);
      Success(AttackStrategy(maxAttackJsize, maxAttackJsize, MinPacketSize, g,
                             Alpha(rI, rA, stats.rMax, g)))
  }

  /** `min(r_I, x / d)` is at most `r_I`, and is either `r_I` or the
      share itself. */
  lemma CappedShare(rI: real, x: real, d: real)
    requires d != 0.0
    ensures var g := MinReal(rI, x / d);
            g <= rI && (g == rI || g * d == x) && (d > 0.0 ==> g * d <= x)
  {
    var g := MinReal(rI, x / d);
    QuotientTimes(x, d);
    if d > 0.0 {
      MulLe(g, x / d, d);
    }
  }

  /** The adversary's work `(r_A / 512) * max attack job size`. */
  function AttackWork(rA: real, maxAttackJsize: real): real {
    (rA / MinPacketSize as real) * maxAttackJsize
  }

  lemma AttackWorkNonNegative(rA: real, maxAttackJsize: real)
    requires rA >= 0.0 && maxAttackJsize >= 0.0
    ensures AttackWork(rA, maxAttackJsize) >= 0.0
  {
    MulLe(0.0, rA / MinPacketSize as real, maxAttackJsize);
  }

  /** More attack traffic never raises the goodput: with non-negative work
      and `r_max`, the fair share shrinks as the adversary's work grows. */
  lemma GoodputFallsWithAttack(k: nat, stats: LogStats, maxAttackJsize: real, rI: real, rA1: real, rA2: real)
    requires k >= 1 && maxAttackJsize >= 0.0 && stats.rMax >= 0.0 && 0.0 <= rA1 <= rA2
    ensures OptimalStrategy(k, stats, maxAttackJsize, rI, rA2).value.expectedGoodput <=
            OptimalStrategy(k, stats, maxAttackJsize, rI, rA1).value.expectedGoodput
  {
    AttackWorkNonNegative(rA1, maxAttackJsize);
    AttackWorkNonNegative(rA2, maxAttackJsize);
    var x := k as real * stats.rMax;
    var d1 := AttackWork(rA1, maxAttackJsize) + k as real;
    var d2 := AttackWork(rA2, maxAttackJsize) + k as real;
    var g1 := StrategyGoodput(k, stats, maxAttackJsize, rI, rA1, d1, x);
    var g2 := StrategyGoodput(k, stats, maxAttackJsize, rI, rA2, d2, x);
    AttackWorkGrows(rA1, rA2, maxAttackJsize);
    if g1 != rI {
      UnderShare(g2, x, d1, d2, g1);
    }
  }

  lemma StrategyGoodput(k: nat, stats: LogStats, maxAttackJsize: real, rI: real, rA: real, d: real, x: real)
    returns (g: real)
    requires d == AttackWork(rA, maxAttackJsize) + k as real && x == k as real * stats.rMax && d > 0.0
    ensures g == OptimalStrategy(k, stats, maxAttackJsize, rI, rA).value.expectedGoodput
    ensures g <= rI && (g == rI || g * d == x) && g * d <= x
  {
    g := OptimalStrategy(k, stats, maxAttackJsize, rI, rA).value.expectedGoodput;
  }

  /** A goodput within the smaller share of `x` stays below the larger one. */
  lemma UnderShare(g2: real, x: real, d1: real, d2: real, g1: real)
    requires 0.0 < d1 <= d2 && x >= 0.0 && g2 * d2 <= x && g1 * d1 == x
    ensures g2 <= g1
  {
    ShareShrinks(x, d1, d2);
    QuotientTimes(x, d1);
    QuotientTimes(x, d2);
    assert g1 == x / d1;
    if g2 > x / d2 {
      MulLt(x / d2, g2, d2);
    }
  }

  lemma AttackWorkGrows(rA1: real, rA2: real, maxAttackJsize: real)
    requires rA1 <= rA2 && maxAttackJsize >= 0.0
    ensures AttackWork(rA1, maxAttackJsize) <= AttackWork(rA2, maxAttackJsize)
  {
    MulLe(rA1 / MinPacketSize as real, rA2 / MinPacketSize as real, maxAttackJsize);
  }

  lemma ShareShrinks(x: real, d1: real, d2: real)
    requires x >= 0.0 && 0.0 < d1 <= d2
    ensures x / d2 <= x / d1
  {
    QuotientTimes(x, d1);
    QuotientTimes(x, d2);
    NonNegQuotient(x, d1);
    NonNegQuotient(x, d2);
    MulLe(d1, d2, x / d2);
  }
}
