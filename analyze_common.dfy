/** What every adversary analyzer shares
    (simulator/scripts/adversary/analyze_common.py): the log record, the
    statistics `BaseAnalyzer._analyze_log` gathers over a packet log, the
    configuration lookup, and the goodput and displacement-factor formulas
    the policies have in common.  Python floats are exact reals here. */
module AnalyzeCommon {
  import opened Wrappers
  import opened Numeric
  import opened Text
  import Utils
  import Scan = AnalyzeScan

  /** `Packet.MIN_PACKET_SIZE` and `Packet.MAX_PACKET_SIZE`, in bits. */
  const MinPacketSize: int := 512
  const MaxPacketSize: int := 12144

  // ---------------------------------------------------------------------
  // Log records
  // ---------------------------------------------------------------------

  /** `SchedulingMetrics`: a packet size, a job size and their ratio. */
  datatype SchedulingMetrics = SchedulingMetrics(psize: int, jsize: real, zRatio: real)

  /** The ratio is the job size per bit of packet. */
  predicate MetricsOk(m: SchedulingMetrics) {
    m.psize != 0 && m.zRatio * m.psize as real == m.jsize
  }

  /** The `SchedulingMetrics` constructor: `jsize / psize` divides by zero
      for an empty packet. */
  function NewMetrics(psize: int, jsize: real): (r: Result<SchedulingMetrics>)
    ensures psize == 0 <==> r == Failure(ZeroDivision)
    ensures r.Success? ==> MetricsOk(r.value) && r.value.psize == psize && r.value.jsize == jsize
  {
    if psize == 0 then Failure(ZeroDivision)
    else Success(SchedulingMetrics(psize, jsize, jsize / psize as real))
  }

  /** A packet of the simulator's output log. */
  datatype LogPacket = LogPacket(arriveClk: real, departClk: real, flowId: string, classTag: string,
                                 metrics: SchedulingMetrics)

  /** Python `float(s)`; a malformed literal is a ValueError. */
  function ReadFloat(s: string): (r: Result<real>)
    ensures r.Success? <==> PyFloat(s).Some?
    ensures r.Failure? ==> r.error == ValueInvalid
  {
    match PyFloat(s)
    case Some(v) => Success(v)
    case None => Failure(ValueInvalid)
  }

  /** Python `int(s)`; a malformed literal is a ValueError. */
  function ReadInt(s: string): (r: Result<int>)
    ensures r.Success? <==> PyInt(s).Some?
    ensures r.Failure? ==> r.error == ValueInvalid
  {
    match PyInt(s)
    case Some(n) => Success(n)
    case None => Failure(ValueInvalid)
  }

  /** `Packet.from_log` on the stripped fields of a line: at least six are
      needed, and any further field is ignored. */
  function FromFields(values: seq<string>): (r: Result<LogPacket>)
    ensures |values| < 6 <==> r == Failure(AssertionFailed)
    ensures |values| >= 6 ==> r == FromSix(values[0], values[1], values[2], values[3], values[4], values[5])
  {
    if |values| < 6 then Failure(AssertionFailed)
    else FromSix(values[0], values[1], values[2], values[3], values[4], values[5])
  }

  /** The `Packet(...)` call of `from_log`: field 4 is the int packet size,
      field 5 the float job size; the arguments are read left to right, so
      the first unreadable one decides the error. */
  function FromSix(arrive: string, depart: string, flowId: string, classTag: string,
                   psize: string, jsize: string): (r: Result<LogPacket>)
    ensures r.Success? ==>
              && PyFloat(arrive) == Some(r.value.arriveClk)
              && PyFloat(depart) == Some(r.value.departClk)
              && r.value.flowId == flowId && r.value.classTag == classTag
              && PyInt(psize) == Some(r.value.metrics.psize)
              && PyFloat(jsize) == Some(r.value.metrics.jsize)
              && MetricsOk(r.value.metrics)
    ensures r.Success? <==>
              && PyFloat(arrive).Some? && PyFloat(depart).Some?
              && PyInt(psize).Some? && PyInt(psize) != Some(0)
              && PyFloat(jsize).Some?
    ensures r.Failure? ==> r.error == ValueInvalid || r.error == ZeroDivision
    ensures r.Failure? && r.error == ZeroDivision ==> PyInt(psize) == Some(0)
  {
    var a :- ReadFloat(arrive);
    var d :- ReadFloat(depart);
    var p :- ReadInt(psize);
    var j :- ReadFloat(jsize);
    var metrics :- NewMetrics(p, j);
    Success(LogPacket(a, d, flowId, classTag, metrics))
  }

  /** `[x.strip() for x in line.split(";")]`. */
  function Fields(line: string): (values: seq<string>)
    ensures |values| == |Utils.SplitSpec(line, ";")|
    ensures forall i :: 0 <= i < |values| ==> values[i] == Strip(Utils.SplitSpec(line, ";")[i])
  {
    var parts := Utils.SplitSpec(line, ";");
    seq(|parts|, i requires 0 <= i < |parts| => Strip(parts[i]))
  }

  /** `Packet.from_log(line)`. */
  function FromLog(line: string): (r: Result<LogPacket>)
    ensures r.Success? ==> |Fields(line)| >= 6
  {
    FromFields(Fields(line))
  }

  /** Fields after the sixth (the simulator writes a seventh, the actual job
      size) play no part. */
  lemma ExtraFieldsIgnored(values: seq<string>, extra: seq<string>)
    requires |values| >= 6
    ensures FromFields(values + extra) == FromFields(values)
  {
    var all := values + extra;
    assert all[..6] == values[..6];
    assert all[0] == values[0] && all[1] == values[1] && all[2] == values[2];
    assert all[3] == values[3] && all[4] == values[4] && all[5] == values[5];
  }

  /** A record whose every number reads but whose packet size is 0 fails on
      the ratio. */
  lemma ZeroPacketSizeFails(arrive: string, depart: string, flowId: string, classTag: string,
                            psize: string, jsize: string)
    requires PyInt(psize) == Some(0)
    requires PyFloat(arrive).Some? && PyFloat(depart).Some? && PyFloat(jsize).Some?
    ensures FromSix(arrive, depart, flowId, classTag, psize, jsize) == Failure(ZeroDivision)
  {
  }

  /** The records of `lines` read one by one in order with `parse`, or the
      error of the first line it rejects. */
  function ParseAll<T>(lines: seq<string>, parse: string -> Result<T>): (r: Result<seq<T>>)
    ensures r.Success? ==> |r.value| == |lines|
  {
    if lines == [] then Success([])
    else
      var ps :- ParseAll(lines[..|lines| - 1], parse);
      var p :- parse(lines[|lines| - 1]);
      Success(ps + [p])
  }

  /** The packets of a whole log in file order, or the error of its first
      bad line. */
  function ParseLog(lines: seq<string>): (r: Result<seq<LogPacket>>)
  {
    ParseAll(lines, FromLog)
  }

  /** A log that is read holds one record per line, each the reading of its
      line. */
  lemma {:induction false} ParseAllElements<T>(lines: seq<string>, parse: string -> Result<T>)
    requires ParseAll(lines, parse).Success?
    ensures forall i :: 0 <= i < |lines| ==> parse(lines[i]) == Success(ParseAll(lines, parse).value[i])
  {
    if lines != [] {
      var prefix := lines[..|lines| - 1];
      ParseAllElements(prefix, parse);
      forall i | 0 <= i < |lines| - 1
        ensures parse(lines[i]) == Success(ParseAll(lines, parse).value[i])
      {
        assert lines[i] == prefix[i];
      }
    }
  }

  /** A rejected log is rejected at its first bad line, with that line's
      error. */
  lemma {:induction false} ParseAllFailureAt<T>(lines: seq<string>, parse: string -> Result<T>) returns (i: nat)
    requires ParseAll(lines, parse).Failure?
    ensures i < |lines| && parse(lines[i]) == Failure(ParseAll(lines, parse).error)
    ensures forall j :: 0 <= j < i ==> parse(lines[j]).Success?
  {
    var prefix := lines[..|lines| - 1];
    if ParseAll(prefix, parse).Failure? {
      i := ParseAllFailureAt(prefix, parse);
      assert lines[i] == prefix[i];
      forall j | 0 <= j < i ensures parse(lines[j]).Success? {
        assert lines[j] == prefix[j];
      }
    } else {
      i := |lines| - 1;
      ParseAllElements(prefix, parse);
      forall j | 0 <= j < i ensures parse(lines[j]).Success? {
        assert lines[j] == prefix[j];
      }
    }
  }

  /** One more line read. */
  lemma ParseAllStep<T>(lines: seq<string>, i: nat, parse: string -> Result<T>, parsed: seq<T>)
    requires i < |lines| && ParseAll(lines[..i], parse) == Success(parsed)
    ensures ParseAll(lines[..i + 1], parse) ==
            match parse(lines[i])
            case Success(p) => Success(parsed + [p])
            case Failure(e) => Failure(e)
  {
    assert lines[..i + 1][..i] == lines[..i];
  }

  /** Once a line is rejected, later lines change nothing. */
  lemma {:induction false} ParseAllFailurePersists<T>(lines: seq<string>, k: nat, parse: string -> Result<T>)
    requires k <= |lines| && ParseAll(lines[..k], parse).Failure?
    ensures ParseAll(lines, parse) == ParseAll(lines[..k], parse)
    decreases |lines| - k
  {
    if k < |lines| {
      assert lines[..k + 1][..k] == lines[..k];
      ParseAllFailurePersists(lines, k + 1, parse);
    } else {
      assert lines[..k] == lines;
    }
  }

  /** The distinct flow ids of a log. */
  function FlowIds(ps: seq<LogPacket>): (ids: set<string>)
    ensures forall i :: 0 <= i < |ps| ==> ps[i].flowId in ids
    ensures forall id :: id in ids ==> exists i :: 0 <= i < |ps| && ps[i].flowId == id
  {
    set i | 0 <= i < |ps| :: ps[i].flowId
  }

  // ---------------------------------------------------------------------
  // Statistics over a log
  // ---------------------------------------------------------------------

  function PsizeSum(ps: seq<LogPacket>): int {
    if ps == [] then 0 else PsizeSum(ps[..|ps| - 1]) + ps[|ps| - 1].metrics.psize
  }

  function JsizeSum(ps: seq<LogPacket>): real {
    if ps == [] then 0.0 else JsizeSum(ps[..|ps| - 1]) + ps[|ps| - 1].metrics.jsize
  }

  /** The running `max(maximum, psize)` from 0: the largest of 0 and every
      packet size. */
  function MaxPsize(ps: seq<LogPacket>): (m: int)
    ensures m >= 0 && forall i :: 0 <= i < |ps| ==> ps[i].metrics.psize <= m
    ensures m == 0 || exists i :: 0 <= i < |ps| && ps[i].metrics.psize == m
  {
    if ps == [] then 0 else MaxInt(MaxPsize(ps[..|ps| - 1]), ps[|ps| - 1].metrics.psize)
  }

  /** The running `max(maximum, jsize)` from 0: the largest of 0 and every
      job size. */
  function MaxJsize(ps: seq<LogPacket>): (m: real)
    ensures m >= 0.0 && forall i :: 0 <= i < |ps| ==> ps[i].metrics.jsize <= m
    ensures m == 0.0 || exists i :: 0 <= i < |ps| && ps[i].metrics.jsize == m
  {
    if ps == [] then 0.0 else MaxReal(MaxJsize(ps[..|ps| - 1]), ps[|ps| - 1].metrics.jsize)
  }

  /** The scheduling metrics of a log's packets, in file order. */
  function MetricsOf(ps: seq<LogPacket>): (ms: seq<SchedulingMetrics>)
    ensures |ms| == |ps| && forall i :: 0 <= i < |ps| ==> ms[i] == ps[i].metrics
  {
    seq(|ps|, i requires 0 <= i < |ps| => ps[i].metrics)
  }

  /** The sort keys and sizes of a packet's metrics. */
  function JsizeOf(m: SchedulingMetrics): real { m.jsize }
  function ZRatioOf(m: SchedulingMetrics): real { m.zRatio }
  function PsizeOf(m: SchedulingMetrics): int { m.psize }

  /** The packet sizes of the metrics add up to the log's total. */
  lemma {:induction false} MetricsPsizeSum(ps: seq<LogPacket>)
    ensures Scan.TotalSize(MetricsOf(ps), PsizeOf) == PsizeSum(ps)
  {
    if ps != [] {
      var init := ps[..|ps| - 1];
      assert MetricsOf(ps)[..|ps| - 1] == MetricsOf(init);
      MetricsPsizeSum(init);
    }
  }

  /** The statistics `_analyze_log` leaves behind. */
  datatype LogStats = LogStats(numTotalPackets: nat, averageInnocentPsize: int,
                               averageInnocentJsize: real, maximumInnocentPsize: int,
                               maximumInnocentJsize: real, rMax: real)

  /** The normalisation after the loop: an empty log divides by zero, and so
      does a log whose job sizes add up to 0 (in `r_max`).  `r_max` uses the
      exact average packet size, which is truncated only afterwards. */
  function Summarize(ps: seq<LogPacket>): (r: Result<LogStats>)
    ensures Normalised(r, |ps|, PsizeSum(ps), JsizeSum(ps), MaxPsize(ps), MaxJsize(ps))
  {
    Normalise(|ps|, PsizeSum(ps), JsizeSum(ps), MaxPsize(ps), MaxJsize(ps))
  }

  /** What the divisions after the loop produce from the count `n`, the two
      totals and the two maxima: a division by zero exactly when there are no
      packets or no job size at all, and otherwise the averages (the packet
      size one truncated), the maxima and `r_max`, the average packet size
      over the average job size. */
  ghost predicate Normalised(r: Result<LogStats>, n: nat, psizeSum: int, jsizeSum: real, maxP: int, maxJ: real) {
    && (r.Failure? <==> n == 0 || jsizeSum == 0.0)
    && (r.Failure? ==> r.error == ZeroDivision)
    && (r.Success? ==>
          var avgP := psizeSum as real / n as real;
          && r.value.numTotalPackets == n
          && r.value.averageInnocentJsize * n as real == jsizeSum
          && r.value.averageInnocentJsize != 0.0
          && r.value.rMax * r.value.averageInnocentJsize == avgP
          && r.value.averageInnocentPsize == Trunc(avgP)
          && r.value.maximumInnocentPsize == maxP
          && r.value.maximumInnocentJsize == maxJ)
  }

  /** The divisions after the loop, on the count, the two totals and the two
      maxima. */
  function Normalise(n: nat, psizeSum: int, jsizeSum: real, maxP: int, maxJ: real): (r: Result<LogStats>)
    ensures Normalised(r, n, psizeSum, jsizeSum, maxP, maxJ)
  {
    if n == 0 then Failure(ZeroDivision)
    else
      var avgP := psizeSum as real / n as real;
      var avgJ := jsizeSum / n as real;
      QuotientTimes(jsizeSum, n as real);
      if avgJ == 0.0 then Failure(ZeroDivision)
      else
        QuotientTimes(avgP, avgJ);
        Success(LogStats(n, Trunc(avgP), avgJ, maxP, maxJ, avgP / avgJ))
  }

  /** With positive sizes the truncated average is the floor of the exact
      one, so it never exceeds it and at most `n` bits per packet are lost:
      `n * average <= total`. */
  lemma TruncatedAverage(ps: seq<LogPacket>)
    requires Summarize(ps).Success? && PsizeSum(ps) >= 0
    ensures var s := Summarize(ps).value;
            0 <= s.averageInnocentPsize &&
            s.numTotalPackets * s.averageInnocentPsize <= PsizeSum(ps) <
              s.numTotalPackets * (s.averageInnocentPsize + 1)
  {
    var s := Summarize(ps).value;
    var n := |ps|;
    var avgP := PsizeSum(ps) as real / n as real;
    FloorBounds(PsizeSum(ps), n, s.averageInnocentPsize);
  }

  lemma FloorBounds(total: int, n: nat, a: int)
    requires n > 0 && total >= 0 && a == (total as real / n as real).Floor
    ensures 0 <= a && n * a <= total < n * (a + 1)
  {
    var x := total as real / n as real;
    QuotientTimes(total as real, n as real);
    NonNegQuotient(total as real, n as real);
    assert 0 <= a;
    ScaledBelow(a as real, x, n as real, total as real);
    assert (a + 1) as real == a as real + 1.0;
    ScaledAbove(x, (a + 1) as real, n as real, total as real);
    CastMul(a, n);
    CastMul(a + 1, n);
  }

  /** `b <= x` and `x * n == t` give `b * n <= t`. */
  lemma ScaledBelow(b: real, x: real, n: real, t: real)
    requires b <= x && n >= 0.0 && x * n == t
    ensures b * n <= t
  {
    MulLe(b, x, n);
  }

  /** `x < b` and `x * n == t` give `t < b * n`. */
  lemma ScaledAbove(x: real, b: real, n: real, t: real)
    requires x < b && n > 0.0 && x * n == t
    ensures t < b * n
  {
    MulLt(x, b, n);
  }

  lemma CastMul(a: int, n: int)
    ensures (n * a) as real == a as real * n as real
  {
  }

  lemma MulLe(x: real, y: real, n: real)
    requires x <= y && n >= 0.0
    ensures x * n <= y * n
  {
  }

  lemma MulLt(x: real, y: real, n: real)
    requires x < y && n > 0.0
    ensures x * n < y * n
  {
  }

  // ---------------------------------------------------------------------
  // The analyzer's statistics and configuration
  // ---------------------------------------------------------------------

  /** The statistics fields of `BaseAnalyzer`. */
  class BaseAnalyzer {
    var rMax: real
    var numTotalPackets: nat
    var averageInnocentPsize: int
    var averageInnocentJsize: real
    var maximumInnocentPsize: int
    var maximumInnocentJsize: real
    /** From the configuration: the largest job size an attack may use (ns). */
    var maximumAttackJsize: real
    /** The packets of the analysed log, in file order. */
    ghost var packets: seq<LogPacket>

    function Stats(): LogStats
      reads this
    {
      LogStats(numTotalPackets, averageInnocentPsize, averageInnocentJsize,
               maximumInnocentPsize, maximumInnocentJsize, rMax)
    }

    /** The log has been analysed: the fields hold its statistics. */
    ghost predicate Analysed()
      reads this
    {
      Summarize(packets) == Success(Stats())
    }

    constructor()
      ensures Stats() == LogStats(0, 0, 0.0, 0, 0.0, 0.0) && maximumAttackJsize == 0.0
      ensures packets == []
    {
      rMax := 0.0;
      numTotalPackets := 0;
      averageInnocentPsize := 0;
      averageInnocentJsize := 0.0;
      maximumInnocentPsize := 0;
      maximumInnocentJsize := 0.0;
      maximumAttackJsize := 0.0;
      packets := [];
    }

    /** `_analyze_log` without the per-policy hook: read the log line by
        line, count the packets, add up and take the maxima of the sizes, then
        normalise.  The parsed packets are returned in file order, so that
        each policy applies its own hook to each of them exactly once. */
    method AnalyzeLog(lines: seq<string>) returns (r: Result<seq<LogPacket>>)
      modifies this
      ensures maximumAttackJsize == old(maximumAttackJsize)
      ensures ParseLog(lines).Failure? ==> r == Failure(ParseLog(lines).error)
      ensures ParseLog(lines).Success? ==>
                match Summarize(ParseLog(lines).value)
                case Failure(e) => r == Failure(e)
                case Success(_) => r == ParseLog(lines)
      ensures r.Success? ==> packets == r.value && Analysed() && numTotalPackets == |lines|
    {
      r := Scan(lines, FromLog);
    }

    /** `_analyze_log` for a line reader `parse`; every caller passes
        `FromLog`, and keeping it a parameter keeps the reader's definition
        out of the proof. */
    method Scan(lines: seq<string>, parse: string -> Result<LogPacket>) returns (r: Result<seq<LogPacket>>)
      modifies this
      ensures maximumAttackJsize == old(maximumAttackJsize)
      ensures ParseAll(lines, parse).Failure? ==> r == Failure(ParseAll(lines, parse).error)
      ensures ParseAll(lines, parse).Success? ==>
                match Summarize(ParseAll(lines, parse).value)
                case Failure(e) => r == Failure(e)
                case Success(_) => r == ParseAll(lines, parse)
      ensures r.Success? ==> packets == r.value && Analysed() && numTotalPackets == |lines|
    {
      var psizeSum, jsizeSum;
      r, psizeSum, jsizeSum := Accumulate(lines, parse);
      if r.Failure? {
        return;
      }
      var parsed := r.value;
      if numTotalPackets == 0 {
        return Failure(ZeroDivision);
      }
      var n := numTotalPackets as real;
      var avgP := psizeSum as real / n;
      averageInnocentJsize := jsizeSum / n;
      if averageInnocentJsize == 0.0 {
        return Failure(ZeroDivision);
      }
      rMax := avgP / averageInnocentJsize;
      averageInnocentPsize := Trunc(avgP);
      packets := parsed;
    }

    /** The loop of `_analyze_log`: each line is read in turn, the first bad
        one ends the scan, and every packet read is counted, added to the
        size totals and to the running maxima. */
    method Accumulate(lines: seq<string>, parse: string -> Result<LogPacket>)
      returns (r: Result<seq<LogPacket>>, psizeSum: int, jsizeSum: real)
      modifies this
      ensures maximumAttackJsize == old(maximumAttackJsize)
      ensures r == ParseAll(lines, parse)
      ensures r.Success? ==>
                && numTotalPackets == |lines| == |r.value|
                && psizeSum == PsizeSum(r.value) && jsizeSum == JsizeSum(r.value)
                && maximumInnocentPsize == MaxPsize(r.value)
                && maximumInnocentJsize == MaxJsize(r.value)
    {
      var parsed: seq<LogPacket> := [];
      psizeSum, jsizeSum := 0, 0.0;
      numTotalPackets := 0;
      maximumInnocentPsize := 0;
      maximumInnocentJsize := 0.0;
      var i := 0;
      while i < |lines|
        invariant 0 <= i <= |lines|
        invariant ParseAll(lines[..i], parse) == Success(parsed)
        invariant numTotalPackets == i
        invariant psizeSum == PsizeSum(parsed) && jsizeSum == JsizeSum(parsed)
        invariant maximumInnocentPsize == MaxPsize(parsed)
        invariant maximumInnocentJsize == MaxJsize(parsed)
        invariant maximumAttackJsize == old(maximumAttackJsize)
      {
        var next := parse(lines[i]);
        ParseAllStep(lines, i, parse, parsed);
        if next.Failure? {
          ParseAllFailurePersists(lines, i + 1, parse);
          return Failure(next.error), psizeSum, jsizeSum;
        }
        var packet := next.value;
        parsed := parsed + [packet];
        assert parsed[..|parsed| - 1] == parsed[..i];
        numTotalPackets := numTotalPackets + 1;
        psizeSum := psizeSum + packet.metrics.psize;
        jsizeSum := jsizeSum + packet.metrics.jsize;
        maximumInnocentPsize := MaxInt(maximumInnocentPsize, packet.metrics.psize);
        maximumInnocentJsize := MaxReal(maximumInnocentJsize, packet.metrics.jsize);
        i := i + 1;
      }
      assert lines[..i] == lines;
      r := Success(parsed);
    }

    /** `_parse_config`: the maximum attack job size is looked up under
        `application.max_attack_job_size_ns`; a missing key raises. */
    method ParseConfig(config: map<string, map<string, real>>) returns (r: Result<()>)
      modifies this
      ensures r.Success? <==> HasAttackJsize(config)
      ensures r.Failure? ==> r.error == KeyMissing && unchanged(this)
      ensures r.Success? ==> maximumAttackJsize == config["application"]["max_attack_job_size_ns"]
      ensures Stats() == old(Stats()) && packets == old(packets)
    {
      if "application" !in config || "max_attack_job_size_ns" !in config["application"] {
        return Failure(KeyMissing);
      }
      maximumAttackJsize := config["application"]["max_attack_job_size_ns"];
      return Success(());
    }
  }

  /** Whether the configuration names the maximum attack job size. */
  predicate HasAttackJsize(config: map<string, map<string, real>>) {
    "application" in config && "max_attack_job_size_ns" in config["application"]
  }

  /** The part of every analyzer's `__init__` they share: a fresh
      `BaseAnalyzer` analyses the log, then reads the configuration.  The
      log's packets are returned in file order for the policy's hook. */
  method Load(lines: seq<string>, config: map<string, map<string, real>>)
    returns (a: BaseAnalyzer, r: Result<seq<LogPacket>>)
    ensures fresh(a)
    ensures ParseLog(lines).Failure? ==> r == Failure(ParseLog(lines).error)
    ensures ParseLog(lines).Success? && Summarize(ParseLog(lines).value).Failure? ==>
              r == Failure(Summarize(ParseLog(lines).value).error)
    ensures ParseLog(lines).Success? && Summarize(ParseLog(lines).value).Success? ==>
              (r.Success? <==> HasAttackJsize(config)) && (r.Failure? ==> r.error == KeyMissing)
    ensures r.Success? ==>
              && r == ParseLog(lines) && a.packets == r.value && a.Analysed()
              && a.numTotalPackets == |lines|
              && a.maximumAttackJsize == config["application"]["max_attack_job_size_ns"]
  {
    a := new BaseAnalyzer();
    r := a.AnalyzeLog(lines);
    if r.Failure? {
      return;
    }
    var c := a.ParseConfig(config);
    if c.Failure? {
      r := Failure(c.error);
    }
  }

  // ---------------------------------------------------------------------
  // Shared formulas of `get_optimal_strategy`
  // ---------------------------------------------------------------------

  /** `AttackStrategy`: the job sizes and packet size the adversary sends,
      with the goodput and displacement factor they are expected to cause. */
  datatype AttackStrategy = AttackStrategy(estimatedJsize: real, actualJsize: real, psize: int,
                                           expectedGoodput: real, alpha: real)

  /** The displacement factor: 0 without attack traffic, otherwise the
      goodput lost below the ideal `min(r_I, r_max)`, clamped at 0, per unit
      of attack rate. */
  function Alpha(rI: real, rA: real, rMax: real, goodput: real): (a: real)
    ensures rA == 0.0 ==> a == 0.0
    ensures rA != 0.0 ==> a * rA == MaxReal(0.0, MinReal(rI, rMax) - goodput)
    ensures rA > 0.0 ==> a >= 0.0
  {
    if rA == 0.0 then 0.0
    else
      var lost := MaxReal(0.0, MinReal(rI, rMax) - goodput);
      NonNegQuotient(lost, rA);
      lost / rA
  }

  lemma NonNegQuotient(x: real, y: real)
    requires x >= 0.0 && y != 0.0
    ensures (x / y) * y == x
    ensures y > 0.0 ==> x / y >= 0.0
  {
  }

  /** `OPTIMAL_ADV_PSIZE` of the WSJF analyzers, in bits. */
  const OptimalAdvPsize: int := 8192

  /** A `fractions.Fraction`, numerator over denominator. */
  datatype Fraction = Fraction(numerator: int, denominator: int)

  /** What `Fraction(x).limit_denominator(max)` promises of the fraction it
      returns: a denominator from 1 to `max`, and 0 as `0/1`. */
  ghost predicate LimitsDenominator(limit: real -> Fraction, max: int) {
    && (forall x :: 1 <= limit(x).denominator <= max)
    && limit(0.0) == Fraction(0, 1)
  }

  /** The WSJF analyzers' encoding of a ratio as (job size, packet size):
      the denominator is the packet size; one below 8192 bits is raised to
      8192 and the numerator scaled alike (as a float) and then truncated. */
  function Encode(f: Fraction): (int, int)
    requires f.denominator >= 1
  {
    if f.denominator < OptimalAdvPsize then
      (Trunc(f.numerator as real * (OptimalAdvPsize as real / f.denominator as real)), OptimalAdvPsize)
    else
      (f.numerator, f.denominator)
  }

  /** A denominator from `limit_denominator(12144)` gives a packet size from
      8192 to 12144 bits. */
  lemma EncodePacketSize(f: Fraction)
    requires 1 <= f.denominator <= MaxPacketSize
    ensures OptimalAdvPsize <= Encode(f).1 <= MaxPacketSize
  {
  }

  /** The encoded job size is within one of the ratio times the encoded
      packet size. */
  lemma EncodeClose(f: Fraction)
    requires f.denominator >= 1
    ensures -1.0 < Encode(f).0 as real - (f.numerator as real / f.denominator as real) * Encode(f).1 as real < 1.0
  {
    var q := f.denominator as real;
    if f.denominator < OptimalAdvPsize {
      var x := f.numerator as real * (OptimalAdvPsize as real / q);
      Rearrange(f.numerator as real, OptimalAdvPsize as real, q);
      TruncClose(x, Encode(f).0);
    } else {
      QuotientTimes(f.numerator as real, q);
    }
  }

  /** When no scaling is needed, or the denominator divides 8192, the
      encoded job size is exactly the ratio times the encoded packet size. */
  lemma EncodeExact(f: Fraction)
    requires f.denominator >= 1
    requires f.denominator >= OptimalAdvPsize || OptimalAdvPsize % f.denominator == 0
    ensures Encode(f).0 as real == (f.numerator as real / f.denominator as real) * Encode(f).1 as real
  {
    var q := f.denominator as real;
    if f.denominator < OptimalAdvPsize {
      var m := OptimalAdvPsize / f.denominator;
      var x := f.numerator as real * (OptimalAdvPsize as real / q);
      var ratio := f.numerator as real / q;
      ExactQuotient(OptimalAdvPsize, f.denominator, m);
      assert x == f.numerator as real * m as real;
      CastMul(f.numerator, m);
      assert x == (m * f.numerator) as real;
      TruncOfInt(x, m * f.numerator);
      assert Encode(f) == (m * f.numerator, OptimalAdvPsize);
      Rearrange(f.numerator as real, OptimalAdvPsize as real, q);
      assert x == ratio * OptimalAdvPsize as real;
    } else {
      QuotientTimes(f.numerator as real, q);
    }
  }

  /** `a * (b / q) == (a / q) * b`. */
  lemma Rearrange(a: real, b: real, q: real)
    requires q != 0.0
    ensures a * (b / q) == (a / q) * b
  {
  }

  /** A truncation is within one of its argument. */
  lemma TruncClose(x: real, t: int)
    requires t == Trunc(x)
    ensures -1.0 < t as real - x < 1.0
  {
  }

  /** A divisor `q` of `p` divides it exactly in the reals too. */
  lemma ExactQuotient(p: int, q: int, m: int)
    requires q >= 1 && p % q == 0 && m == p / q
    ensures p as real / q as real == m as real
  {
    assert m * q == p;
    CastMul(m, q);
  }

  /** Truncating an integer-valued real gives that integer. */
  lemma TruncOfInt(x: real, n: int)
    requires x == n as real
    ensures Trunc(x) == n
  {
  }

  /** A zero ratio is encoded as a zero job size in an 8192-bit packet. */
  lemma EncodeZero()
    ensures Encode(Fraction(0, 1)) == (0, OptimalAdvPsize)
  {
  }

  /** The goodput of the scan-based policies: the share of innocent bits
      scheduled, `r_I * scheduled / (N * floor(avg psize))`. */
  function Goodput(rI: real, scheduled: int, stats: LogStats): (r: Result<real>)
    ensures stats.numTotalPackets * stats.averageInnocentPsize == 0 <==> r == Failure(ZeroDivision)
    ensures r.Success? ==>
              r.value * (stats.numTotalPackets * stats.averageInnocentPsize) as real == rI * scheduled as real
  {
    var denominator := stats.numTotalPackets * stats.averageInnocentPsize;
    if denominator == 0 then Failure(ZeroDivision)
    else
      var g := (rI * scheduled as real) / denominator as real;
      QuotientTimes(rI * scheduled as real, denominator as real);
      Success(g)
  }

  lemma QuotientTimes(x: real, y: real)
    requires y != 0.0
    ensures (x / y) * y == x
  {
  }

  /** Because the average packet size is truncated, scheduling every innocent
      bit yields a goodput of at least `r_I`, and possibly more. */
  lemma GoodputWhenAllScheduled(rI: real, ps: seq<LogPacket>)
    requires rI >= 0.0 && Summarize(ps).Success? && PsizeSum(ps) >= 0
    requires Goodput(rI, PsizeSum(ps), Summarize(ps).value).Success?
    ensures Goodput(rI, PsizeSum(ps), Summarize(ps).value).value >= rI
  {
    TruncatedAverage(ps);
    GoodputAtLeastRate(rI, PsizeSum(ps), Summarize(ps).value);
  }

  /** Scheduling at least `N * floor(avg psize)` bits gives at least `r_I`. */
  lemma GoodputAtLeastRate(rI: real, scheduled: int, stats: LogStats)
    requires rI >= 0.0 && 0 < stats.numTotalPackets * stats.averageInnocentPsize <= scheduled
    ensures Goodput(rI, scheduled, stats).Success? && Goodput(rI, scheduled, stats).value >= rI
  {
    var d := stats.numTotalPackets * stats.averageInnocentPsize;
    var g := Goodput(rI, scheduled, stats).value;
    assert g * d as real == rI * scheduled as real;
    ScaleAtLeast(rI, g, d as real, scheduled as real);
  }

  lemma ScaleAtLeast(rI: real, g: real, d: real, total: real)
    requires rI >= 0.0 && 0.0 < d <= total && g * d == rI * total
    ensures g >= rI
  {
    MulLe(d, total, rI);
    if g < rI {
      MulLt(g, rI, d);
    }
  }
}
