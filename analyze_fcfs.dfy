/** The FCFS analyzer (simulator/scripts/adversary/analyze_fcfs.py): under
    first-come-first-served every packet waits behind all the work queued
    before it, so the adversary sends its largest jobs in minimum-size
    packets and the goodput follows in closed form.  The analyzer keeps no
    state of its own beyond `BaseAnalyzer` (its per-packet hook does
    nothing), so it is `AnalyzeCommon.Load` followed by `OptimalStrategy`
    on the statistics. */
module AnalyzeFcfs {
  import opened Wrappers
  import opened Numeric
  import opened AnalyzeCommon

  /** The work offered per unit of capacity: the adversary's `r_A / 512`
      packets per unit each of job size `maxAttackJsize`, and the innocent
      `r_I / avg psize` packets each of the average job size. */
  function TotalWork(stats: LogStats, maxAttackJsize: real, rI: real, rA: real): real
    requires stats.averageInnocentPsize != 0
  {
    (rI / stats.averageInnocentPsize as real) * stats.averageInnocentJsize +
    (rA / MinPacketSize as real) * maxAttackJsize
  }

  /** `get_optimal_strategy`: the goodput is `r_I` scaled down by the total
      work when that exceeds the capacity; an average packet size of 0 or a
      total work of 0 divides by zero.  The strategy itself does not depend
      on the trace: the largest attack job in a minimum-size packet. */
  function OptimalStrategy(stats: LogStats, maxAttackJsize: real, rI: real, rA: real)
    : (r: Result<AttackStrategy>)
    ensures stats.averageInnocentPsize == 0 ==> r == Failure(ZeroDivision)
    ensures stats.averageInnocentPsize != 0 ==>
              (r.Failure? <==> TotalWork(stats, maxAttackJsize, rI, rA) == 0.0)
    ensures r.Failure? ==> r.error == ZeroDivision
    ensures r.Success? ==>
              var w := TotalWork(stats, maxAttackJsize, rI, rA);
              var g := r.value.expectedGoodput;
              && (0.0 < w <= 1.0 ==> g == rI)
              && (w < 0.0 || 1.0 <= w ==> g * w == rI)
              && (rI >= 0.0 ==> g <= rI)
              && (rI >= 0.0 && w > 0.0 ==> g >= 0.0)
              && r.value.alpha == Alpha(rI, rA, stats.rMax, g)
              && r.value.estimatedJsize == maxAttackJsize && r.value.actualJsize == maxAttackJsize
              && r.value.psize == MinPacketSize
  {
    if stats.averageInnocentPsize == 0 then Failure(ZeroDivision)
    else
      var w := TotalWork(stats, maxAttackJsize, rI, rA);
      if w == 0.0 then Failure(ZeroDivision)
      else
        var g := rI * MinReal(1.0, 1.0 / w);
        GoodputShare(rI, w);
        Success(AttackStrategy(maxAttackJsize, maxAttackJsize, MinPacketSize, g,
                               Alpha(rI, rA, stats.rMax, g)))
  }

  /** `r_I * min(1, 1 / w)`: `r_I` itself while the work fits, `r_I / w`
      once it does not (or when `w` is negative). */
  lemma GoodputShare(rI: real, w: real)
    requires w != 0.0
    ensures 0.0 < w <= 1.0 ==> rI * MinReal(1.0, 1.0 / w) == rI
    ensures w < 0.0 || 1.0 <= w ==> rI * MinReal(1.0, 1.0 / w) * w == rI
    ensures rI >= 0.0 ==> rI * MinReal(1.0, 1.0 / w) <= rI
    ensures rI >= 0.0 && w > 0.0 ==> rI * MinReal(1.0, 1.0 / w) >= 0.0
  {
    var m := MinReal(1.0, 1.0 / w);
    ShareFactor(w);
    if w < 0.0 || 1.0 <= w {
      assert rI * m * w == rI * (m * w);
    }
    if rI >= 0.0 {
      MulLe(m, 1.0, rI);
      if w > 0.0 {
        MulLe(0.0, m, rI);
      }
    }
  }

  /** `min(1, 1 / w)` is 1 while the work fits and `1 / w` otherwise. */
  lemma ShareFactor(w: real)
    requires w != 0.0
    ensures 0.0 < w <= 1.0 ==> MinReal(1.0, 1.0 / w) == 1.0
    ensures w < 0.0 || 1.0 <= w ==> MinReal(1.0, 1.0 / w) * w == 1.0
    ensures w > 0.0 ==> MinReal(1.0, 1.0 / w) > 0.0
  {
    QuotientTimes(1.0, w);
    if 0.0 < w <= 1.0 {
      ReciprocalAtLeastOne(w);
    }
    if 1.0 <= w {
      ReciprocalAtMostOne(w);
    }
    if w < 0.0 {
      NegativeReciprocal(w);
    }
    if w > 0.0 {
      PositiveReciprocal(w);
    }
  }

  lemma ReciprocalAtLeastOne(w: real)
    requires 0.0 < w <= 1.0
    ensures 1.0 / w >= 1.0
  {
  }

  lemma ReciprocalAtMostOne(w: real)
    requires 1.0 <= w
    ensures 1.0 / w <= 1.0
  {
  }

  lemma NegativeReciprocal(w: real)
    requires w < 0.0
    ensures 1.0 / w < 0.0
  {
  }

  lemma PositiveReciprocal(w: real)
    requires w > 0.0
    ensures 1.0 / w > 0.0
  {
  }

  /** Without attack traffic the displacement factor is 0 and, for a trace
      the server keeps up with, the goodput is the innocent rate. */
  lemma NoAttack(stats: LogStats, maxAttackJsize: real, rI: real)
    requires stats.averageInnocentPsize != 0
    requires 0.0 < TotalWork(stats, maxAttackJsize, rI, 0.0) <= 1.0
    ensures OptimalStrategy(stats, maxAttackJsize, rI, 0.0).Success?
    ensures OptimalStrategy(stats, maxAttackJsize, rI, 0.0).value.expectedGoodput == rI
    ensures OptimalStrategy(stats, maxAttackJsize, rI, 0.0).value.alpha == 0.0
  {
  }
}
